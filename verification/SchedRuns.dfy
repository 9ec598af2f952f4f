/**
 What every run of the scheduler keeps, and how long a queued thread can wait.
 */
module SchedRuns {
  import opened Options
  import opened SchedSpec

  // ----------------------------------------------- every step keeps the invariant

  lemma {:induction false} InsertKeepsQueues<T>(s: Sched<T>, t: T)
    requires QueuesOk(s) && t in s.info && s.info[t].state == Ready && !Queued(s, t)
    ensures QueuesOk(InsertTail(s, t))
  {
    var r := InsertTail(s, t);
    assert IntentOk(s, t);
    forall c: nat ensures QueueOk(r, c) {
      assert QueueOk(s, c);
      assert c < |s.queues| ==> t !in s.queues[c];
    }
    forall x | x in r.info ensures IntentOk(r, x) { assert IntentOk(s, x); }
  }

  /** Writing the record of a thread that is in no queue leaves the queues in order. */
  lemma {:induction false} RecordKeepsQueues<T>(s: Sched<T>, t: T, i: Info)
    requires QueuesOk(s) && !Queued(s, t) && i.intent < INTENT_COUNT
    ensures QueuesOk(Record(s, t, i))
  {
    var r := Record(s, t, i);
    forall c: nat ensures QueueOk(r, c) {
      assert QueueOk(s, c);
      assert c < |s.queues| ==> t !in s.queues[c];
    }
    forall x | x in r.info ensures IntentOk(r, x) { assert x != t ==> IntentOk(s, x); }
  }

  /** The queues' order does not depend on who is running or on the preemption flags. */
  lemma {:induction false} QueuesOkIgnores<T>(s: Sched<T>, r: Sched<T>)
    requires QueuesOk(s) && r.queues == s.queues && r.info == s.info && r.cursor < SLOTS
    ensures QueuesOk(r)
  {
    forall c: nat ensures QueueOk(r, c) { assert QueueOk(s, c); }
    forall x | x in r.info ensures IntentOk(r, x) { assert IntentOk(s, x); }
  }

  /** Only ready threads are queued, each in the queue of its own class. */
  lemma {:induction false} QueuedIsReady<T>(s: Sched<T>, t: T)
    requires QueuesOk(s) && Queued(s, t)
    ensures t in s.info && s.info[t].state == Ready && s.info[t].intent < INTENT_COUNT
    ensures t in s.queues[s.info[t].intent]
    ensures forall c :: 0 <= c < INTENT_COUNT && t in s.queues[c] ==> c == s.info[t].intent
  {
    forall c | 0 <= c < INTENT_COUNT && t in s.queues[c]
      ensures t in s.info && c == s.info[t].intent && s.info[t].state == Ready
    {
      assert QueueOk(s, c);
    }
  }

  lemma {:induction false} CurrentNotQueued<T>(s: Sched<T>)
    requires Inv(s)
    ensures !Queued(s, s.current)
  {
    if Queued(s, s.current) { QueuedIsReady(s, s.current); }
  }

  lemma {:induction false} PopKeepsQueues<T>(s: Sched<T>)
    requires QueuesOk(s) && !NothingReady(s.queues)
    ensures QueuesOk(Popped(s)) && !Queued(Popped(s), Best(s)) && Best(s) in s.info
  {
    var c := PickClass(s.queues, s.cursor);
    var r, h := Popped(s), Best(s);
    assert QueueOk(s, c) && h in s.queues[c];
    forall d: nat ensures QueueOk(r, d) && (d < |r.queues| ==> h !in r.queues[d]) {
      assert QueueOk(s, d);
      assert d < |s.queues| ==> forall t :: t in r.queues[d] ==> t in s.queues[d];
    }
    forall x | x in r.info ensures IntentOk(r, x) { assert IntentOk(s, x); }
  }

  lemma {:induction false} SwitchKeepsInv<T>(s: Sched<T>)
    requires QueuesOk(s) && s.boot in s.info
    requires NothingReady(s.queues) ==> s.current in s.info && !Queued(s, s.current)
    ensures Inv(SwitchToBest(s))
  {
    var p, h := Popped(s), Best(s);
    if !NothingReady(s.queues) { PopKeepsQueues(s); }
    assert IntentOk(p, h) by { assert IntentOk(s, h); }
    RecordKeepsQueues(p, h, Started(Look(p, h)));
    QueuesOkIgnores(Record(p, h, Started(Look(p, h))), SwitchToBest(s));
  }

  /** Making an unqueued thread ready and queueing it. */
  lemma {:induction false} MakeReadyKeepsQueues<T>(s: Sched<T>, t: T)
    requires QueuesOk(s) && t in s.info && !Queued(s, t)
    ensures QueuesOk(MakeReady(s, t))
  {
    assert IntentOk(s, t);
    RecordKeepsQueues(s, t, s.info[t].(state := Ready));
    assert !Queued(SetState(s, t, Ready), t);
    InsertKeepsQueues(SetState(s, t, Ready), t);
  }

  lemma {:induction false} RequeueKeepsQueues<T>(s: Sched<T>)
    requires Inv(s)
    ensures QueuesOk(Requeue(s)) && s.boot in Requeue(s).info && s.current in Requeue(s).info
    ensures NothingReady(Requeue(s).queues) ==> !Queued(Requeue(s), s.current)
  {
    CurrentNotQueued(s);
    MakeReadyKeepsQueues(s, s.current);
  }

  lemma {:induction false} RescheduleKeepsInv<T>(s: Sched<T>)
    requires Inv(s)
    ensures Inv(Reschedule(s))
  {
    RequeueKeepsQueues(s);
    var r := Requeue(s.(needResched := false));
    QueuesOkIgnores(Requeue(s), r);
    SwitchKeepsInv(r);
  }

  lemma {:induction false} BlockKeepsInv<T>(s: Sched<T>)
    requires Inv(s)
    ensures Inv(BlockCurrent(s))
  {
    CurrentNotQueued(s);
    assert IntentOk(s, s.current);
    if NothingReady(s.queues) {
      RecordKeepsQueues(s, s.current, s.info[s.current].(state := Running));
    } else {
      RecordKeepsQueues(s, s.current, s.info[s.current].(state := Blocked));
      SwitchKeepsInv(SetState(s, s.current, Blocked));
    }
  }

  /** Marking the running thread blocked before the pick, and undoing it when nothing else can run, is `BlockCurrent`. */
  lemma {:induction false} BlockThenPick<T>(s: Sched<T>)
    requires Inv(s)
    ensures var b := SetState(s, s.current, Blocked);
            && (Best(b) == s.current ==> BlockCurrent(s) == SetState(Popped(b), s.current, Running))
            && (Best(b) != s.current ==> BlockCurrent(s) == Dispatch(Popped(b), Best(b)))
  {
    CurrentNotQueued(s);
    var b := SetState(s, s.current, Blocked);
    if NothingReady(s.queues) {
      assert SetState(b, s.current, Running).info == SetState(s, s.current, Running).info;
    } else {
      assert Best(b) in s.queues[PickClass(s.queues, s.cursor)];
    }
  }

  lemma {:induction false} WithoutIs<T>(q: seq<T>, t: T, k: nat)
    requires k < |q| && q[k] == t && Distinct(q)
    ensures Without(q, t) == q[..k] + q[k + 1..]
  {
    if k == 0 {
    } else {
      assert q[0] != q[k];
      WithoutIs(q[1..], t, k - 1);
      assert [q[0]] + q[1..][..k - 1] == q[..k];
      assert q[1..][k..] == q[k + 1..];
    }
  }

  lemma {:induction false} WithoutLeaves<T>(q: seq<T>, t: T)
    requires t in q && Distinct(q)
    ensures var r := Without(q, t); Distinct(r) && t !in r && forall x :: x in r ==> x in q
  {
    var k :| 0 <= k < |q| && q[k] == t;
    WithoutIs(q, t, k);
  }

  /** Taking a queued thread out of its queue leaves the queues in order. */
  lemma {:induction false} DequeueKeepsQueues<T>(s: Sched<T>, t: T)
    requires QueuesOk(s) && Queued(s, t)
    ensures QueuesOk(Dequeue(s, t)) && !Queued(Dequeue(s, t), t)
  {
    QueuedIsReady(s, t);
    var c := ClassOf(s, t);
    assert QueueOk(s, c);
    WithoutLeaves(s.queues[c], t);
    var u := Dequeue(s, t);
    forall d: nat ensures QueueOk(u, d) && (d < |u.queues| ==> t !in u.queues[d]) {
      assert QueueOk(s, d);
    }
    forall x | x in u.info ensures IntentOk(u, x) { assert IntentOk(s, x); }
  }

  lemma {:induction false} ChangeIntentKeepsInv<T>(s: Sched<T>, t: T, raw: nat)
    requires Inv(s) && t in s.info
    ensures Inv(ChangeIntent(s, t, raw))
  {
    var i := Look(s, t).(intent := Sanitize(raw));
    if Look(s, t).intent == Sanitize(raw) {
    } else if Queued(s, t) {
      CurrentNotQueued(s);
      DequeueKeepsQueues(s, t);
      QueuedIsReady(s, t);
      RecordKeepsQueues(Dequeue(s, t), t, i);
      assert !Queued(Record(Dequeue(s, t), t, i), t);
      InsertKeepsQueues(Record(Dequeue(s, t), t, i), t);
    } else {
      RecordKeepsQueues(s, t, i);
    }
  }

  lemma {:induction false} TickKeepsInv<T>(s: Sched<T>, over: bool)
    requires Inv(s) && (over ==> s.current != s.boot)
    ensures Inv(TimerTick(s, over))
  {
    CurrentNotQueued(s);
    assert IntentOk(s, s.current);
    var i := Ticked(Look(s, s.current), over);
    RecordKeepsQueues(s, s.current, i);
    QueuesOkIgnores(Record(s, s.current, i), TimerTick(s, over));
  }

  /** Every permitted step keeps the invariant. */
  lemma {:induction false} StepKeepsInv<T>(s: Sched<T>, step: Step<T>)
    requires Inv(s) && Enabled(s, step)
    ensures Inv(Next(s, step))
  {
    CurrentNotQueued(s);
    match step
    case Create(t) =>
      if Queued(s, t) { QueuedIsReady(s, t); }
      RecordKeepsQueues(s, t, FRESH);
    case Enqueue(t) =>
      MakeReadyKeepsQueues(s, t);
    case Yield =>
      RescheduleKeepsInv(s);
    case Block =>
      BlockKeepsInv(s);
    case Wake(t) =>
      if s.info[t].state == Blocked {
        if Queued(s, t) { QueuedIsReady(s, t); }
        MakeReadyKeepsQueues(s, t);
      }
    case SetIntent(t, raw) =>
      ChangeIntentKeepsInv(s, t, raw);
    case Tick(over) =>
      TickKeepsInv(s, over);
    case Irq =>
      RescheduleKeepsInv(s);
    case Exit =>
      assert IntentOk(s, s.current);
      RecordKeepsQueues(s, s.current, s.info[s.current].(state := Dead));
    case PreemptDisable =>
      QueuesOkIgnores(s, Next(s, step));
    case PreemptEnable =>
      QueuesOkIgnores(s, Next(s, step));
  }

  // ------------------------------------------------------------------- runs

  /** Every step of the run is permitted in the state it is taken from. */
  ghost predicate ValidRun<T>(s: Sched<T>, run: seq<Step<T>>)
    requires Inv(s)
    decreases |run|
  {
    run != [] ==>
      && Enabled(s, run[0])
      && (StepKeepsInv(s, run[0]); ValidRun(Next(s, run[0]), run[1..]))
  }

  ghost function Exec<T>(s: Sched<T>, run: seq<Step<T>>): (r: Sched<T>)
    requires Inv(s) && ValidRun(s, run)
    ensures Inv(r)
    decreases |run|
  {
    if run == [] then s
    else StepKeepsInv(s, run[0]); Exec(Next(s, run[0]), run[1..])
  }

  /** The state a step picks from, when it is a step that picks. */
  ghost function PickState<T>(s: Sched<T>, step: Step<T>): (r: Option<Sched<T>>)
    requires Inv(s)
    ensures r.Some? ==> Shape(r.value.queues, r.value.cursor)
  {
    match step
    case Yield => Some(Requeue(s))
    case Irq => if s.needResched && s.preemptCount == 0 then Some(Requeue(s)) else None
    case Block => Some(s)
    case _ => None
  }

  /** The step takes a thread out of the queues. */
  ghost predicate Picks<T>(s: Sched<T>, step: Step<T>)
    requires Inv(s)
  {
    var p := PickState(s, step);
    p.Some? && !NothingReady(p.value.queues)
  }

  /** The step takes thread `t` out of the queues. */
  ghost predicate Serves<T>(s: Sched<T>, step: Step<T>, t: T)
    requires Inv(s)
  {
    Picks(s, step) && Best(PickState(s, step).value) == t
  }

  /** A served thread has the processor in the next state, with a fresh slice. */
  lemma {:induction false} ServedThreadRuns<T>(s: Sched<T>, step: Step<T>, t: T)
    requires Inv(s) && Enabled(s, step) && Serves(s, step, t)
    ensures var n := Next(s, step);
            && n.current == t && n.info[t].state == Running
            && n.info[t].used == 0 && n.info[t].budget > 0
  {
    StepKeepsInv(s, step);
    if step == Block {
      assert Best(SetState(s, s.current, Blocked)) == Best(s);
    } else {
      assert Requeue(s.(needResched := false)) == Requeue(s).(needResched := false);
    }
  }

  ghost function PickCount<T>(s: Sched<T>, run: seq<Step<T>>): nat
    requires Inv(s) && ValidRun(s, run)
    decreases |run|
  {
    if run == [] then 0
    else
      StepKeepsInv(s, run[0]);
      (if Picks(s, run[0]) then 1 else 0) + PickCount(Next(s, run[0]), run[1..])
  }

  ghost predicate ServedIn<T>(s: Sched<T>, run: seq<Step<T>>, t: T)
    requires Inv(s) && ValidRun(s, run)
    decreases |run|
  {
    run != [] &&
    (StepKeepsInv(s, run[0]);
     Serves(s, run[0], t) || ServedIn(Next(s, run[0]), run[1..], t))
  }

  // -------------------------------------------------------- bounded waiting

  function FirstSlot(c: nat): nat
    requires c < INTENT_COUNT
  {
    if c == 0 then 0 else if c == 1 then 6 else if c == 2 then 10 else 12
  }

  /** How many slots lie between the cursor and the next slot of class `c`. */
  function Gap(cursor: nat, c: nat): (g: nat)
    requires cursor < SLOTS && c < INTENT_COUNT
  {
    if SlotClass(cursor) == c then 0
    else if cursor <= FirstSlot(c) then FirstSlot(c) - cursor
    else FirstSlot(c) + SLOTS - cursor
  }

  /** How many slots, from the cursor on, it takes to reach the `k+1`st slot of class `c`. */
  function Wait(cursor: nat, c: nat, k: nat): nat
    requires cursor < SLOTS && c < INTENT_COUNT
    decreases k
  {
    var g := Gap(cursor, c) + 1;
    if k == 0 then g else g + Wait(Slot(cursor, g), c, k - 1)
  }

  /** The worst gap of each class, as picks. */
  function WorstGap(c: nat): nat
    requires c < INTENT_COUNT
  {
    if c == 0 then 8 else if c == 1 then 10 else if c == 2 then 12 else 13
  }

  lemma {:induction false} GapReaches(cursor: nat, c: nat, i: nat)
    requires cursor < SLOTS && c < INTENT_COUNT
    ensures Gap(cursor, c) < WorstGap(c)
    ensures SlotServes(cursor, Gap(cursor, c), c)
    ensures i < Gap(cursor, c) ==>
              && !SlotServes(cursor, i, c)
              && Gap(Slot(cursor, i + 1), c) == Gap(cursor, c) - (i + 1)
  {
  }

  /** The bound is met: each class has a cursor from which its gap is the worst one. */
  lemma {:induction false} WorstGapIsMet(c: nat) returns (cursor: nat)
    requires c < INTENT_COUNT
    ensures cursor < SLOTS && Wait(cursor, c, 0) == WorstGap(c)
  {
    cursor := [6, 10, 12, 0][c];
  }

  lemma {:induction false} WaitBound(cursor: nat, c: nat, k: nat)
    requires cursor < SLOTS && c < INTENT_COUNT
    ensures Wait(cursor, c, k) <= WorstGap(c) * (k + 1)
    decreases k
  {
    GapReaches(cursor, c, 0);
    if k > 0 {
      WaitBound(Slot(cursor, Gap(cursor, c) + 1), c, k - 1);
    }
  }

  lemma {:induction false} WaitGrows(cursor: nat, c: nat, j: nat, k: nat)
    requires cursor < SLOTS && c < INTENT_COUNT && j <= k
    ensures Wait(cursor, c, j) <= Wait(cursor, c, k)
    decreases k
  {
    if 0 < j {
      WaitGrows(Slot(cursor, Gap(cursor, c) + 1), c, j - 1, k - 1);
    }
  }

  /** A pick never steps over a slot of a class that has a thread waiting, so it uses up waiting time. */
  lemma {:induction false} PickUsesWait<T>(s: Sched<T>, c: nat, k: nat)
    requires Shape(s.queues, s.cursor) && c < INTENT_COUNT && k < |s.queues[c]|
    ensures !NothingReady(s.queues)
    ensures PickClass(s.queues, s.cursor) != c ==> Wait(Popped(s).cursor, c, k) < Wait(s.cursor, c, k)
    ensures PickClass(s.queues, s.cursor) == c && k > 0 ==> Wait(Popped(s).cursor, c, k - 1) < Wait(s.cursor, c, k)
  {
    assert s.queues[c] != [];
    var i, g := PickOffset(s.queues, s.cursor), Gap(s.cursor, c);
    GapReaches(s.cursor, c, i);
    assert SlotServes(s.cursor, g, c);
    assert i <= g;
    if PickClass(s.queues, s.cursor) == c {
      assert SlotServes(s.cursor, i, c);
      assert i == g;
    }
  }

  /** `t` has `k` threads ahead of it in class `c`. */
  ghost predicate At<T>(s: Sched<T>, t: T, c: nat, k: nat)
  {
    c < |s.queues| && k < |s.queues[c]| && s.queues[c][k] == t
  }

  /** The step does not move `t` out of class `c`. */
  ghost predicate KeepsClass<T>(step: Step<T>, t: T, c: nat) {
    step.SetIntent? && step.t == t ==> Sanitize(step.raw) == c
  }

  /** One thread fewer, possibly one ahead: removal moves `t` forward by at most one place. */
  lemma {:induction false} RemovalMovesUp<T>(q: seq<T>, x: T, t: T, k: nat) returns (j: nat)
    requires Distinct(q) && x in q && k < |q| && q[k] == t && t != x
    ensures j <= k && j < |Without(q, x)| && Without(q, x)[j] == t
  {
    var m :| 0 <= m < |q| && q[m] == x;
    WithoutIs(q, x, m);
    j := if m < k then k - 1 else k;
  }

  /** A switch either serves `t` or brings its turn strictly closer. */
  lemma {:induction false} SwitchProgress<T>(s: Sched<T>, t: T, c: nat, k: nat) returns (j: nat)
    requires QueuesOk(s) && At(s, t, c, k) && Best(s) != t
    ensures j <= k && At(SwitchToBest(s), t, c, j)
    ensures Wait(SwitchToBest(s).cursor, c, j) < Wait(s.cursor, c, k)
  {
    PickUsesWait(s, c, k);
    j := if PickClass(s.queues, s.cursor) == c then k - 1 else k;
  }

  /** One step that does not serve `t` leaves it queued, no further back, and closer by every pick. */
  lemma {:induction false} StepProgress<T>(s: Sched<T>, step: Step<T>, t: T, c: nat, k: nat) returns (j: nat)
    requires Inv(s) && Enabled(s, step) && At(s, t, c, k)
    requires KeepsClass(step, t, c) && !Serves(s, step, t)
    ensures j <= k && At(Next(s, step), t, c, j)
    ensures Inv(Next(s, step))
    ensures Wait(Next(s, step).cursor, c, j) + (if Picks(s, step) then 1 else 0) <= Wait(s.cursor, c, k)
  {
    StepKeepsInv(s, step);
    CurrentNotQueued(s);
    assert QueueOk(s, c) && t in s.queues[c];
    j := k;
    match step
    case Yield =>
      j := RescheduleProgress(s, t, c, k);
    case Irq =>
      if s.needResched && s.preemptCount == 0 { j := RescheduleProgress(s, t, c, k); }
    case Block =>
      j := BlockProgress(s, t, c, k);
    case SetIntent(x, raw) =>
      if x != t { j := SetIntentProgress(s, x, raw, t, c, k); }
    case _ =>
  }

  lemma {:induction false} BlockProgress<T>(s: Sched<T>, t: T, c: nat, k: nat) returns (j: nat)
    requires Inv(s) && s.current != s.boot && At(s, t, c, k) && !Serves(s, Block, t)
    ensures j <= k && At(BlockCurrent(s), t, c, j) && Wait(BlockCurrent(s).cursor, c, j) < Wait(s.cursor, c, k)
  {
    CurrentNotQueued(s);
    assert s.queues[c] != [];
    RecordKeepsQueues(s, s.current, s.info[s.current].(state := Blocked));
    assert Best(SetState(s, s.current, Blocked)) == Best(s);
    j := SwitchProgress(SetState(s, s.current, Blocked), t, c, k);
  }

  lemma {:induction false} SetIntentProgress<T>(s: Sched<T>, x: T, raw: nat, t: T, c: nat, k: nat) returns (j: nat)
    requires Inv(s) && x in s.info && x != t && At(s, t, c, k)
    ensures j <= k && At(ChangeIntent(s, x, raw), t, c, j)
    ensures Wait(ChangeIntent(s, x, raw).cursor, c, j) <= Wait(s.cursor, c, k)
  {
    j := k;
    if Queued(s, x) && s.info[x].intent != Sanitize(raw) {
      QueuedIsReady(s, x);
      assert QueueOk(s, c);
      if s.info[x].intent == c { j := RemovalMovesUp(s.queues[c], x, t, k); }
      WaitGrows(s.cursor, c, j, k);
    }
  }

  lemma {:induction false} RescheduleProgress<T>(s: Sched<T>, t: T, c: nat, k: nat) returns (j: nat)
    requires Inv(s) && At(s, t, c, k) && Best(Requeue(s)) != t
    ensures j <= k && At(Reschedule(s), t, c, j)
    ensures Wait(Reschedule(s).cursor, c, j) < Wait(s.cursor, c, k)
  {
    RequeueKeepsQueues(s);
    var r := Requeue(s);
    assert Requeue(s.(needResched := false)) == r.(needResched := false);
    assert At(r, t, c, k);
    j := SwitchProgress(r, t, c, k);
    assert SwitchToBest(r.(needResched := false)) == SwitchToBest(r).(needResched := false);
  }

  /**
   Bounded waiting, as a bound on how many picks a run can make without serving
   a queued thread: fewer than the slots up to the thread's own turn.
   */
  lemma {:induction false} UnservedRunIsShort<T>(s: Sched<T>, run: seq<Step<T>>, t: T, c: nat, k: nat)
    requires Inv(s) && ValidRun(s, run) && At(s, t, c, k)
    requires forall i :: 0 <= i < |run| ==> KeepsClass(run[i], t, c)
    requires !ServedIn(s, run, t)
    ensures PickCount(s, run) < Wait(s.cursor, c, k)
    decreases |run|
  {
    if run != [] {
      var j := StepProgress(s, run[0], t, c, k);
      UnservedRunIsShort(Next(s, run[0]), run[1..], t, c, j);
    }
  }

  /**
   Bounded waiting: in every run, a thread queued in class `c` behind `k` others
   whose own class is not changed is served within `WorstGap(c) * (k + 1)` picks.
   */
  lemma {:induction false} BoundedWaiting<T>(s: Sched<T>, run: seq<Step<T>>, t: T, c: nat, k: nat)
    requires Inv(s) && ValidRun(s, run) && At(s, t, c, k)
    requires forall i :: 0 <= i < |run| ==> KeepsClass(run[i], t, c)
    requires PickCount(s, run) >= WorstGap(c) * (k + 1)
    ensures ServedIn(s, run, t)
  {
    WaitBound(s.cursor, c, k);
    if !ServedIn(s, run, t) { UnservedRunIsShort(s, run, t, c, k); }
  }

  /**
   Slices: from boot, after any run ending in a preemptible interrupt exit, the
   running thread has ticks left in its slice, unless it is the bootstrap thread
   and has not yet been charged a tick.
   */
  lemma {:induction false} SliceHolds<T>(boot: T, run: seq<Step<T>>)
    requires (InitHolds(boot); ValidRun(Init(boot), run) && Exec(Init(boot), run).preemptCount == 0)
    ensures (InitHolds(boot);
             var r := IrqExit(Exec(Init(boot), run));
             || r.info[r.current].used < r.info[r.current].budget
             || (r.current == boot && r.info[boot].budget == 0 && r.info[boot].used == 0))
  {
    InitHolds(boot);
    var e := Exec(Init(boot), run);
    ExecKeepsBoot(Init(boot), run);
    if e.needResched {
      RescheduleKeepsInv(e);
      assert IrqExit(e).info[IrqExit(e).current].used == 0;
    }
  }

  lemma {:induction false} ExecKeepsBoot<T>(s: Sched<T>, run: seq<Step<T>>)
    requires Inv(s) && ValidRun(s, run)
    ensures Exec(s, run).boot == s.boot
    decreases |run|
  {
    if run != [] {
      StepKeepsInv(s, run[0]);
      ExecKeepsBoot(Next(s, run[0]), run[1..]);
    }
  }

  lemma {:induction false} InitHolds<T>(boot: T)
    ensures Inv(Init(boot))
  {
    assert forall c :: 0 <= c < INTENT_COUNT ==> QueueOk(Init(boot), c);
  }
}
