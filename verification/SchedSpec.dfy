/**
 The intent scheduler as a step machine on values.

 A state holds four FIFO queues (one per intent class), the pick cursor, the
 running thread, and what the scheduler records about every thread it knows.
 `Next` gives the effect of one IRQ-masked operation; `Inv` is what every
 operation keeps.  Threads are an arbitrary type `T`, so the same functions
 specify the linked implementation, where `T` is a class of thread objects.
 */
module SchedSpec {

  const INTENT_COUNT: nat := 4
  const BACKGROUND: nat := 3

  /** Which class each of the thirteen pick slots serves. */
  const PATTERN: seq<nat> := [0, 0, 0, 0, 0, 0, 1, 1, 1, 1, 2, 2, 3]
  const SLOTS: nat := 13

  function Sanitize(raw: nat): (c: nat)
    ensures c < INTENT_COUNT
  {
    if raw >= INTENT_COUNT then BACKGROUND else raw
  }

  function SliceFor(intent: nat): nat {
    match intent
    case 0 => 2
    case 1 => 3
    case 2 => 5
    case _ => 8
  }

  datatype ThreadState = Ready | Running | Blocked | Dead

  /** What the scheduler records about one thread. */
  datatype Info = Info(state: ThreadState, intent: nat, budget: nat, used: nat)

  /** The values thread creation stores. */
  const FRESH := Info(Ready, 0, 0, 0)

  datatype Sched<T> = Sched(
    queues: seq<seq<T>>,
    cursor: nat,
    current: T,
    boot: T,
    info: map<T, Info>,
    needResched: bool,
    preemptCount: nat)

  // ---------------------------------------------------------------- picking

  ghost predicate Shape(queues: seq<seq>, cursor: nat) {
    |queues| == INTENT_COUNT && cursor < SLOTS
  }

  function Slot(cursor: nat, i: nat): (idx: nat)
    ensures idx < SLOTS
    ensures cursor < SLOTS && i <= SLOTS ==> idx == if cursor + i < SLOTS then cursor + i else cursor + i - SLOTS
  {
    (cursor + i) % SLOTS
  }

  lemma {:induction false} NextSlot(cursor: nat, i: nat)
    requires cursor < SLOTS && i < SLOTS
    ensures (Slot(cursor, i) + 1) % SLOTS == Slot(cursor, i + 1)
  {
  }

  /** The class of a slot: six interactive, four latency, two throughput, one background. */
  function SlotClass(idx: nat): (c: nat)
    requires idx < SLOTS
    ensures c == if idx < 6 then 0 else if idx < 10 then 1 else if idx < 12 then 2 else 3
  {
    PATTERN[idx]
  }

  /** Class `c` owns the slot `i` steps after the cursor. */
  predicate SlotServes(cursor: nat, i: nat, c: nat) {
    SlotClass(Slot(cursor, i)) == c
  }

  /** Offset `i` is the first slot, counted from the cursor, whose class has a thread waiting. */
  ghost predicate FirstServable(queues: seq<seq>, cursor: nat, i: nat)
    requires Shape(queues, cursor)
  {
    && i < SLOTS
    && queues[SlotClass(Slot(cursor, i))] != []
    && forall j :: 0 <= j < i ==> queues[SlotClass(Slot(cursor, j))] == []
  }

  ghost predicate NothingReady(queues: seq<seq>)
    requires |queues| == INTENT_COUNT
  {
    forall c :: 0 <= c < INTENT_COUNT ==> queues[c] == []
  }

  /** Every class owns a slot, so a pick finds a thread exactly when one is waiting. */
  lemma {:induction false} SomeSlotServes(queues: seq<seq>, cursor: nat) returns (i: nat)
    requires Shape(queues, cursor)
    requires !NothingReady(queues)
    ensures FirstServable(queues, cursor, i)
  {
    var c :| 0 <= c < INTENT_COUNT && queues[c] != [];
    var slot := if c == 0 then 0 else if c == 1 then 6 else if c == 2 then 10 else 12;
    var k := (slot + SLOTS - cursor) % SLOTS;
    assert Slot(cursor, k) == slot;
    i := 0;
    while queues[SlotClass(Slot(cursor, i))] == []
      invariant i <= k
      invariant forall j :: 0 <= j < i ==> queues[SlotClass(Slot(cursor, j))] == []
      decreases k - i
    {
      i := i + 1;
    }
  }

  ghost function PickOffset(queues: seq<seq>, cursor: nat): (i: nat)
    requires Shape(queues, cursor)
    requires !NothingReady(queues)
    ensures FirstServable(queues, cursor, i)
  {
    assert exists i: nat :: FirstServable(queues, cursor, i) by {
      var i := SomeSlotServes(queues, cursor);
    }
    var i: nat :| FirstServable(queues, cursor, i);
    i
  }

  lemma {:induction false} PickOffsetIs(queues: seq<seq>, cursor: nat, i: nat)
    requires Shape(queues, cursor) && FirstServable(queues, cursor, i)
    ensures !NothingReady(queues) && PickOffset(queues, cursor) == i
  {
    var j := PickOffset(queues, cursor);
    assert queues[SlotClass(Slot(cursor, i))] != [] && queues[SlotClass(Slot(cursor, j))] != [];
  }

  lemma {:induction false} NoSlotServesMeansNothingReady(queues: seq<seq>, cursor: nat)
    requires Shape(queues, cursor)
    requires forall j :: 0 <= j < SLOTS ==> queues[SlotClass(Slot(cursor, j))] == []
    ensures NothingReady(queues)
  {
    if !NothingReady(queues) { var i := SomeSlotServes(queues, cursor); }
  }

  ghost function PickClass(queues: seq<seq>, cursor: nat): (c: nat)
    requires Shape(queues, cursor)
    requires !NothingReady(queues)
    ensures c < INTENT_COUNT && queues[c] != []
  {
    SlotClass(Slot(cursor, PickOffset(queues, cursor)))
  }

  // ------------------------------------------------------------- operations

  ghost predicate Queued<T>(s: Sched<T>, t: T) {
    exists c :: 0 <= c < |s.queues| && t in s.queues[c]
  }

  /** What is recorded about `t`; a thread not yet known counts as just created. */
  function Look<T>(s: Sched<T>, t: T): Info {
    if t in s.info then s.info[t] else FRESH
  }

  function Record<T>(s: Sched<T>, t: T, i: Info): Sched<T> {
    s.(info := s.info[t := i])
  }

  function SetState<T>(s: Sched<T>, t: T, st: ThreadState): Sched<T> {
    Record(s, t, Look(s, t).(state := st))
  }

  /** The class a thread is filed under. */
  function ClassOf<T>(s: Sched<T>, t: T): (c: nat)
    ensures c < INTENT_COUNT
  {
    Sanitize(Look(s, t).intent)
  }

  function InsertTail<T>(s: Sched<T>, t: T): Sched<T>
    requires |s.queues| == INTENT_COUNT
  {
    var c := ClassOf(s, t);
    s.(queues := s.queues[c := s.queues[c] + [t]])
  }

  /** Make a thread ready and queue it. */
  function MakeReady<T>(s: Sched<T>, t: T): Sched<T>
    requires |s.queues| == INTENT_COUNT
  {
    InsertTail(SetState(s, t, Ready), t)
  }

  function Without<T(==)>(q: seq<T>, t: T): (r: seq<T>)
  {
    if q == [] then [] else if q[0] == t then q[1..] else [q[0]] + Without(q[1..], t)
  }

  /** The record of a thread given the processor: running, with a full slice for its class. */
  function Started(i: Info): Info {
    i.(state := Running, budget := SliceFor(Sanitize(i.intent)), used := 0)
  }

  function Dispatch<T>(s: Sched<T>, t: T): Sched<T> {
    Record(s, t, Started(Look(s, t))).(current := t)
  }

  /** The queues and cursor after the best thread, if any, has been taken out. */
  ghost function Popped<T>(s: Sched<T>): Sched<T>
    requires Shape(s.queues, s.cursor)
  {
    if NothingReady(s.queues) then s
    else
      var c := PickClass(s.queues, s.cursor);
      s.(queues := s.queues[c := s.queues[c][1..]],
         cursor := Slot(s.cursor, PickOffset(s.queues, s.cursor) + 1))
  }

  /** The thread a pick returns: the head of the chosen class, or the running thread when none waits. */
  ghost function Best<T>(s: Sched<T>): T
    requires Shape(s.queues, s.cursor)
  {
    if NothingReady(s.queues) then s.current else s.queues[PickClass(s.queues, s.cursor)][0]
  }

  /** The running thread goes to the tail of its queue, unless it is the bootstrap thread or has exited. */
  function Requeue<T(==)>(s: Sched<T>): Sched<T>
    requires |s.queues| == INTENT_COUNT
  {
    if s.current != s.boot && Look(s, s.current).state == Running then MakeReady(s, s.current) else s
  }

  /** Take the best waiting thread, if any, and give it the processor. */
  ghost function SwitchToBest<T>(s: Sched<T>): Sched<T>
    requires Shape(s.queues, s.cursor)
  {
    Dispatch(Popped(s), Best(s))
  }

  /** A voluntary or preempting reschedule. */
  ghost function Reschedule<T>(s: Sched<T>): Sched<T>
    requires Shape(s.queues, s.cursor)
  {
    SwitchToBest(Requeue(s.(needResched := false)))
  }

  /** Blocking gives up the processor only when another thread can run. */
  ghost function BlockCurrent<T>(s: Sched<T>): Sched<T>
    requires Shape(s.queues, s.cursor)
  {
    if NothingReady(s.queues) then SetState(s, s.current, Running)
    else SwitchToBest(SetState(s, s.current, Blocked))
  }

  function WakeThread<T>(s: Sched<T>, t: T): Sched<T>
    requires |s.queues| == INTENT_COUNT
  {
    if Look(s, t).state == Blocked then MakeReady(s, t) else s
  }

  function EnqueueThread<T>(s: Sched<T>, t: T): Sched<T>
    requires |s.queues| == INTENT_COUNT
  {
    if Look(s, t).state == Dead then s else MakeReady(s, t)
  }

  function Dequeue<T(==)>(s: Sched<T>, t: T): Sched<T>
    requires |s.queues| == INTENT_COUNT
  {
    var c := ClassOf(s, t);
    s.(queues := s.queues[c := Without(s.queues[c], t)])
  }

  /** A queued thread moves to the tail of its new class; any other thread just changes class. */
  ghost function ChangeIntent<T>(s: Sched<T>, t: T, raw: nat): Sched<T>
    requires |s.queues| == INTENT_COUNT
  {
    var i := Look(s, t).(intent := Sanitize(raw));
    if Look(s, t).intent == Sanitize(raw) then s
    else if Queued(s, t) then InsertTail(Record(Dequeue(s, t), t, i), t)
    else Record(s, t, i)
  }

  /** A tick charged to a record; `overLimit` says the thread's task has passed its CPU ceiling. */
  function Ticked(i: Info, overLimit: bool): Info {
    i.(intent := if overLimit then BACKGROUND else i.intent, used := i.used + 1)
  }

  /** A timer tick charges the running thread and asks for a reschedule once its slice is used up. */
  function TimerTick<T>(s: Sched<T>, overLimit: bool): Sched<T> {
    var i := Ticked(Look(s, s.current), overLimit);
    Record(s, s.current, i).(needResched := s.needResched || overLimit || i.budget == 0 || i.used >= i.budget)
  }

  ghost function IrqExit<T>(s: Sched<T>): Sched<T>
    requires Shape(s.queues, s.cursor)
  {
    if s.needResched && s.preemptCount == 0 then Reschedule(s) else s
  }

  // ------------------------------------------------------------------ steps

  datatype Step<T> =
    | Create(t: T)
    | Enqueue(t: T)
    | Yield
    | Block
    | Wake(t: T)
    | SetIntent(t: T, raw: nat)
    | Tick(overLimit: bool)
    | Irq
    | Exit
    | PreemptDisable
    | PreemptEnable

  /** What the callers of each operation must respect. */
  ghost predicate Enabled<T>(s: Sched<T>, step: Step<T>) {
    match step
    case Create(t) => t !in s.info
    case Enqueue(t) => t in s.info && t != s.current && !Queued(s, t)
    case Block => s.current != s.boot
    case Wake(t) => t in s.info
    case SetIntent(t, _) => t in s.info
    case PreemptEnable => s.preemptCount > 0
    case Tick(over) => over ==> s.current != s.boot
    case _ => true
  }

  ghost function Next<T>(s: Sched<T>, step: Step<T>): Sched<T>
    requires Shape(s.queues, s.cursor) && Enabled(s, step)
  {
    match step
    case Create(t) => Record(s, t, FRESH)
    case Enqueue(t) => EnqueueThread(s, t)
    case Yield => Reschedule(s)
    case Block => BlockCurrent(s)
    case Wake(t) => WakeThread(s, t)
    case SetIntent(t, raw) => ChangeIntent(s, t, raw)
    case Tick(over) => TimerTick(s, over)
    case Irq => IrqExit(s)
    case Exit => SetState(s, s.current, Dead)
    case PreemptDisable => s.(preemptCount := s.preemptCount + 1)
    case PreemptEnable => s.(preemptCount := s.preemptCount - 1)
  }

  // -------------------------------------------------------------- invariant

  ghost predicate Distinct<T>(q: seq<T>) {
    forall i, j :: 0 <= i < j < |q| ==> q[i] != q[j]
  }

  /** Every thread in queue `c` is known, ready, filed under `c`, and there once. */
  ghost predicate QueueOk<T>(s: Sched<T>, c: nat) {
    c < |s.queues| ==>
      && Distinct(s.queues[c])
      && forall t :: t in s.queues[c] ==>
           t in s.info && s.info[t].state == Ready && s.info[t].intent == c
  }

  ghost predicate IntentOk<T>(s: Sched<T>, t: T) {
    Look(s, t).intent < INTENT_COUNT
  }

  /**
   The running thread is known and is neither ready nor blocked; it has been
   given a slice unless it is the bootstrap thread; and once its slice is
   used up a reschedule is pending.
   */
  ghost predicate CurrentOk<T>(s: Sched<T>) {
    var i := Look(s, s.current);
    && s.current in s.info
    && s.boot in s.info
    && i.state in {Running, Dead}
    && (i.budget == 0 ==> s.current == s.boot)
    && (0 < i.used && i.budget <= i.used ==> s.needResched)
  }

  /** The queues hold known, ready threads, each once and under its own class. */
  ghost predicate QueuesOk<T>(s: Sched<T>) {
    && Shape(s.queues, s.cursor)
    && (forall t :: t in s.info ==> IntentOk(s, t))
    && (forall c: nat :: QueueOk(s, c))
  }

  ghost predicate Inv<T>(s: Sched<T>) {
    QueuesOk(s) && CurrentOk(s)
  }

  /** The state boot leaves: only the bootstrap thread, running. */
  function Init<T>(boot: T): Sched<T> {
    Sched([[], [], [], []], 0, boot, boot, map[boot := Info(Running, 0, 0, 0)], false, 0)
  }
}
