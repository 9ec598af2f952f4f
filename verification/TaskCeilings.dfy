/**
 Task-level ceilings: a sliding accounting window per task, CPU ticks charged by
 the timer, and the allow / transfer / account protocol of block I/O.
 */
module TaskCeilings {
  import opened Options
  import Arith

  datatype Limits = Limits(window: nat, cpu: nat, read: nat, write: nat)

  /** What has been charged since `start`. */
  datatype Usage = Usage(start: nat, cpu: nat, read: nat, write: nat)

  datatype Totals = Totals(cpu: nat, read: nat, write: nat, cpuThrottle: nat, ioThrottle: nat)

  datatype TaskValue = TaskValue(lim: Limits, win: Usage, tot: Totals)

  /** A zero window length counts as one tick. */
  function Span(lim: Limits): (n: nat)
    ensures n > 0
  {
    if lim.window == 0 then 1 else lim.window
  }

  predicate RollsOver(t: TaskValue, now: nat) {
    now < t.win.start || now - t.win.start >= Span(t.lim)
  }

  /** Windows start on the grid laid down by the first one: step on by whole spans until `now` is inside. */
  function GridStart(start: nat, now: nat, span: nat): (g: nat)
    requires span > 0 && start <= now
    ensures start <= g <= now < g + span
    decreases now - start
  {
    if now - start < span then start else GridStart(start + span, now, span)
  }

  /** The window in force at tick `now`: the same one, or a fresh one. */
  function Roll(t: TaskValue, now: nat): (r: TaskValue)
    ensures r.win.start <= now < r.win.start + Span(t.lim)
    ensures r.lim == t.lim && r.tot == t.tot
    ensures if RollsOver(t, now) then r.win == Usage(r.win.start, 0, 0, 0) else r == t
  {
    if now < t.win.start then t.(win := Usage(now, 0, 0, 0))
    else if now - t.win.start < Span(t.lim) then t
    else t.(win := Usage(GridStart(t.win.start, now, Span(t.lim)), 0, 0, 0))
  }

  /** The kernel reaches the same grid point with one division. */
  lemma {:induction false} GridStartByDivision(start: nat, now: nat, span: nat)
    requires span > 0 && start <= now
    ensures GridStart(start, now, span) == start + (now - start) / span * span
    decreases now - start
  {
    if now - start < span {
      Arith.DivUnique(now - start, span, 0, now - start);
    } else {
      GridStartByDivision(start + span, now, span);
      OneSpanLess(now - start, span);
    }
  }

  lemma {:induction false} OneSpanLess(elapsed: nat, span: nat)
    requires 0 < span <= elapsed
    ensures elapsed / span * span == (elapsed - span) / span * span + span
  {
    var q, r := (elapsed - span) / span, (elapsed - span) % span;
    Arith.MulDistributes(q, 1, span);
    Arith.DivUnique(elapsed, span, q + 1, r);
  }

  /** A timer tick charged to the task; crossing the ceiling is a throttle event. */
  function Charge(t: TaskValue, now: nat): TaskValue {
    Bump(Roll(t, now))
  }

  function Bump(r: TaskValue): TaskValue {
    var cpu := r.win.cpu + 1;
    r.(win := r.win.(cpu := cpu),
       tot := r.tot.(cpu := r.tot.cpu + 1,
                     cpuThrottle := if r.lim.cpu != 0 && cpu == r.lim.cpu + 1
                                    then r.tot.cpuThrottle + 1 else r.tot.cpuThrottle))
  }

  predicate OverCpu(lim: Limits, win: Usage) {
    lim.cpu != 0 && win.cpu > lim.cpu
  }

  predicate Fits(limit: nat, used: nat) {
    limit != 0 ==> used <= limit
  }

  predicate Allowed(t: TaskValue, bytes: nat, isWrite: bool) {
    if isWrite then Fits(t.lim.write, t.win.write + bytes) else Fits(t.lim.read, t.win.read + bytes)
  }

  function AllowIo(t: TaskValue, bytes: nat, isWrite: bool, now: nat): TaskValue {
    var r := Roll(t, now);
    if Allowed(r, bytes, isWrite) then r else r.(tot := r.tot.(ioThrottle := r.tot.ioThrottle + 1))
  }

  function AccountIo(t: TaskValue, bytes: nat, isWrite: bool, now: nat): TaskValue {
    var r := Roll(t, now);
    if isWrite then
      r.(win := r.win.(write := r.win.write + bytes), tot := r.tot.(write := r.tot.write + bytes))
    else
      r.(win := r.win.(read := r.win.read + bytes), tot := r.tot.(read := r.tot.read + bytes))
  }

  function SetContract(t: TaskValue, lim: Limits, now: nat): TaskValue {
    t.(lim := lim.(window := if lim.window == 0 then 100 else lim.window), win := Usage(now, 0, 0, 0))
  }

  // ------------------------------------------------------------------- runs

  /** What can happen to a task with one thread: at most one transfer of its own is in flight. */
  datatype Event =
    | Tick(charged: bool)
    | IoBegin(bytes: nat, isWrite: bool)
    | IoDone
    | IoFailed
    | Contract(lim: Limits)

  datatype Closed = Closed(lim: Limits, win: Usage)

  /** A task, the tick counter, its transfer in flight, and the windows it has closed. */
  datatype World = World(task: TaskValue, now: nat, inFlight: Option<(nat, bool)>, past: seq<Closed>)

  predicate Enabled(w: World, e: Event) {
    match e
    case Tick(_) => true
    case IoBegin(_, _) => w.inFlight.None?
    case IoDone => w.inFlight.Some?
    case IoFailed => w.inFlight.Some?
    case Contract(_) => w.inFlight.None?
  }

  /** The closed windows once the task has been rolled to tick `now`. */
  function PastAt(w: World, now: nat): seq<Closed> {
    if RollsOver(w.task, now) then w.past + [Closed(w.task.lim, w.task.win)] else w.past
  }

  function Next(w: World, e: Event): World
    requires Enabled(w, e)
  {
    match e
    case Tick(charged) =>
      if charged then w.(task := Charge(w.task, w.now + 1), now := w.now + 1, past := PastAt(w, w.now + 1))
      else w.(now := w.now + 1)
    case IoBegin(bytes, isWrite) =>
      w.(task := AllowIo(w.task, bytes, isWrite, w.now), past := PastAt(w, w.now),
         inFlight := if Allowed(Roll(w.task, w.now), bytes, isWrite) then Some((bytes, isWrite)) else None)
    case IoDone =>
      w.(task := AccountIo(w.task, w.inFlight.value.0, w.inFlight.value.1, w.now), past := PastAt(w, w.now),
         inFlight := None)
    case IoFailed => w.(inFlight := None)
    case Contract(lim) =>
      w.(task := SetContract(w.task, lim, w.now), past := w.past + [Closed(w.task.lim, w.task.win)])
  }

  /** No window charged more than its limits allow, nor more ticks than it has. */
  predicate WindowOk(lim: Limits, win: Usage) {
    Fits(lim.read, win.read) && Fits(lim.write, win.write) && win.cpu <= Span(lim)
  }

  /** The lifetime counters, as charges over windows: CPU ticks, bytes read and written, windows over their CPU ceiling. */
  datatype Ledger = Ledger(cpu: nat, read: nat, write: nat, overruns: nat)

  function Add(l: Ledger, lim: Limits, win: Usage): Ledger {
    Ledger(l.cpu + win.cpu, l.read + win.read, l.write + win.write, l.overruns + if OverCpu(lim, win) then 1 else 0)
  }

  function Sum(past: seq<Closed>): Ledger {
    if past == [] then Ledger(0, 0, 0, 0)
    else Add(Sum(past[..|past| - 1]), past[|past| - 1].lim, past[|past| - 1].win)
  }

  function Counted(t: Totals): Ledger {
    Ledger(t.cpu, t.read, t.write, t.cpuThrottle)
  }

  ghost predicate AllOk(past: seq<Closed>) {
    forall i :: 0 <= i < |past| ==> WindowOk(past[i].lim, past[i].win)
  }

  ghost predicate Inv(w: World) {
    var t := w.task;
    && t.win.start <= w.now
    && t.win.cpu <= w.now - t.win.start + 1
    && WindowOk(t.lim, t.win)
    && AllOk(w.past)
    && (w.inFlight.Some? ==> Allowed(t, w.inFlight.value.0, w.inFlight.value.1))
    && Counted(t.tot) == Add(Sum(w.past), t.lim, t.win)
  }

  /** Rolling moves the charges of a finished window into the past and keeps everything else. */
  lemma {:induction false} RollKeepsInv(w: World, now: nat)
    requires Inv(w) && w.now <= now
    ensures Inv(w.(task := Roll(w.task, now), past := PastAt(w, now), now := now))
    ensures Roll(w.task, now).win.cpu <= now - Roll(w.task, now).win.start + (if now == w.now then 1 else 0)
  {
    FreshWindowKeepsInv(w, now, Roll(w.task, now));
  }

  /** What `RollKeepsInv` needs to know about the rolled task `r`. */
  lemma {:induction false} FreshWindowKeepsInv(w: World, now: nat, r: TaskValue)
    requires Inv(w) && w.now <= now
    requires r.win.start <= now && r.lim == w.task.lim && r.tot == w.task.tot
    requires if RollsOver(w.task, now) then r.win == Usage(r.win.start, 0, 0, 0) else r == w.task
    ensures Inv(w.(task := r, past := PastAt(w, now), now := now))
    ensures r.win.cpu <= now - r.win.start + (if now == w.now then 1 else 0)
  {
    if RollsOver(w.task, now) { ClosedWindowKeepsInv(w, now, r); }
  }

  lemma {:induction false} ClosedIsCounted(past: seq<Closed>, c: Closed)
    ensures Sum(past + [c]) == Add(Sum(past), c.lim, c.win)
    ensures AllOk(past) && WindowOk(c.lim, c.win) ==> AllOk(past + [c])
  {
    assert (past + [c])[..|past|] == past;
  }

  lemma {:induction false} NothingAdds(l: Ledger, lim: Limits, start: nat)
    ensures Add(l, lim, Usage(start, 0, 0, 0)) == l && WindowOk(lim, Usage(start, 0, 0, 0))
  {
  }

  /** A window that is over goes into the past, and nothing is charged to the new one. */
  lemma {:induction false} ClosedWindowKeepsInv(w: World, now: nat, r: TaskValue)
    requires Inv(w) && w.now <= now && RollsOver(w.task, now)
    requires r.win.start <= now && r.lim == w.task.lim && r.tot == w.task.tot && r.win == Usage(r.win.start, 0, 0, 0)
    ensures Inv(w.(task := r, past := w.past + [Closed(w.task.lim, w.task.win)], now := now))
  {
    var c := Closed(w.task.lim, w.task.win);
    ClosedIsCounted(w.past, c);
    NothingAdds(Sum(w.past + [c]), r.lim, r.win.start);
  }

  /** Charges go into an already rolled window. */
  lemma {:induction false} ChargeKeepsInv(w: World)
    requires Inv(w)
    ensures Inv(Next(w, Tick(true)))
  {
    var r := Roll(w.task, w.now + 1);
    FreshWindowKeepsInv(w, w.now + 1, r);
    var v := w.(task := r, past := PastAt(w, w.now + 1), now := w.now + 1);
    BumpKeepsInv(v);
    assert Next(w, Tick(true)) == v.(task := Bump(r));
  }

  lemma {:induction false} BumpKeepsInv(v: World)
    requires Inv(v) && v.task.win.cpu <= v.now - v.task.win.start < Span(v.task.lim)
    ensures Inv(v.(task := Bump(v.task)))
  {
  }

  lemma {:induction false} IoKeepsInv(w: World, e: Event)
    requires Inv(w) && Enabled(w, e) && (e.IoBegin? || e.IoDone?)
    ensures Inv(Next(w, e))
  {
    RollKeepsInv(w, w.now);
    var v := w.(task := Roll(w.task, w.now), past := PastAt(w, w.now), now := w.now);
    assert Inv(v);
  }

  lemma {:induction false} StepKeepsInv(w: World, e: Event)
    requires Inv(w) && Enabled(w, e)
    ensures Inv(Next(w, e))
  {
    match e
    case Tick(charged) =>
      if charged { ChargeKeepsInv(w); }
    case IoBegin(_, _) =>
      IoKeepsInv(w, e);
    case IoDone =>
      IoKeepsInv(w, e);
    case IoFailed =>
    case Contract(lim) =>
      var c := Closed(w.task.lim, w.task.win);
      assert (w.past + [c])[..|w.past|] == w.past;
  }

  ghost predicate ValidRun(w: World, run: seq<Event>)
    decreases |run|
  {
    run != [] ==> Enabled(w, run[0]) && ValidRun(Next(w, run[0]), run[1..])
  }

  ghost function Exec(w: World, run: seq<Event>): World
    requires ValidRun(w, run)
    decreases |run|
  {
    if run == [] then w else Exec(Next(w, run[0]), run[1..])
  }

  /** A task as initialised: a window of 100 ticks from tick zero and no limits. */
  const FRESH := World(TaskValue(Limits(100, 0, 0, 0), Usage(0, 0, 0, 0), Totals(0, 0, 0, 0, 0)), 0, None, [])

  lemma {:induction false} RunKeepsInv(w: World, run: seq<Event>)
    requires Inv(w) && ValidRun(w, run)
    ensures Inv(Exec(w, run))
    decreases |run|
  {
    if run != [] {
      StepKeepsInv(w, run[0]);
      RunKeepsInv(Next(w, run[0]), run[1..]);
    }
  }

  ghost predicate CeilingsHold(w: World) {
    var all := w.past + [Closed(w.task.lim, w.task.win)];
    && AllOk(all)
    && Counted(w.task.tot) == Sum(all)
  }

  lemma {:induction false} InvMeansCeilingsHold(w: World)
    requires Inv(w)
    ensures CeilingsHold(w)
  {
    assert (w.past + [Closed(w.task.lim, w.task.win)])[..|w.past|] == w.past;
  }

  /**
   Ceilings over runs of a fresh task: in every window, open or closed, the bytes
   charged stay within a non-zero limit and the ticks within the window's length;
   the throttle count is the number of windows that overran; and the lifetime
   counters are the sums over all windows.
   */
  lemma {:induction false} CeilingsHoldInEveryRun(w: World, run: seq<Event>)
    requires Inv(w) && ValidRun(w, run)
    ensures CeilingsHold(Exec(w, run))
  {
    RunKeepsInv(w, run);
    InvMeansCeilingsHold(Exec(w, run));
  }

  /** A fresh task is a legal start. */
  lemma {:induction false} FreshHolds()
    ensures Inv(FRESH)
  {
  }

  // -------------------------------------------------------------- the class

  class Task {
    var limitWindowTicks: nat
    var cpuTicksLimit: nat
    var readBytesLimit: nat
    var writeBytesLimit: nat
    var windowStartTick: nat
    var cpuTicksWindow: nat
    var readBytesWindow: nat
    var writeBytesWindow: nat
    var cpuTicksTotal: nat
    var readBytesTotal: nat
    var writeBytesTotal: nat
    var cpuThrottleEvents: nat
    var ioThrottleEvents: nat

    function Value(): TaskValue
      reads this
    {
      TaskValue(Limits(limitWindowTicks, cpuTicksLimit, readBytesLimit, writeBytesLimit),
                Usage(windowStartTick, cpuTicksWindow, readBytesWindow, writeBytesWindow),
                Totals(cpuTicksTotal, readBytesTotal, writeBytesTotal, cpuThrottleEvents, ioThrottleEvents))
    }

    constructor ()
      ensures Value() == FRESH.task
    {
      limitWindowTicks, cpuTicksLimit, readBytesLimit, writeBytesLimit := 100, 0, 0, 0;
      windowStartTick, cpuTicksWindow, readBytesWindow, writeBytesWindow := 0, 0, 0, 0;
      cpuTicksTotal, readBytesTotal, writeBytesTotal, cpuThrottleEvents, ioThrottleEvents := 0, 0, 0, 0, 0;
    }

    method RollWindow(now: nat)
      modifies this
      ensures Value() == Roll(old(Value()), now)
    {
      var window := if limitWindowTicks == 0 then 1 else limitWindowTicks;
      if now < windowStartTick {
        windowStartTick, cpuTicksWindow, readBytesWindow, writeBytesWindow := now, 0, 0, 0;
        return;
      }
      if now - windowStartTick < window { return; }
      var spans := (now - windowStartTick) / window;
      GridStartByDivision(windowStartTick, now, window);
      windowStartTick := windowStartTick + spans * window;
      cpuTicksWindow, readBytesWindow, writeBytesWindow := 0, 0, 0;
    }

    method ApplyContract(lim: Limits, now: nat)
      modifies this
      ensures Value() == SetContract(old(Value()), lim, now)
    {
      limitWindowTicks := if lim.window == 0 then 100 else lim.window;
      cpuTicksLimit, readBytesLimit, writeBytesLimit := lim.cpu, lim.read, lim.write;
      windowStartTick, cpuTicksWindow, readBytesWindow, writeBytesWindow := now, 0, 0, 0;
    }

    /** The task's share of a timer tick; `over` asks the scheduler to demote the running thread. */
    method ChargeTick(now: nat) returns (over: bool)
      modifies this
      ensures Value() == Charge(old(Value()), now)
      ensures over == OverCpu(Value().lim, Value().win)
    {
      RollWindow(now);
      cpuTicksTotal := cpuTicksTotal + 1;
      cpuTicksWindow := cpuTicksWindow + 1;
      over := cpuTicksLimit != 0 && cpuTicksWindow > cpuTicksLimit;
      if over && cpuTicksWindow == cpuTicksLimit + 1 {
        cpuThrottleEvents := cpuThrottleEvents + 1;
      }
    }

    method Allow(bytes: nat, isWrite: bool, now: nat) returns (ok: bool)
      modifies this
      ensures Value() == AllowIo(old(Value()), bytes, isWrite, now)
      ensures ok == Allowed(Roll(old(Value()), now), bytes, isWrite)
    {
      RollWindow(now);
      if isWrite {
        if writeBytesLimit != 0 && writeBytesWindow + bytes > writeBytesLimit {
          ioThrottleEvents := ioThrottleEvents + 1;
          return false;
        }
      } else {
        if readBytesLimit != 0 && readBytesWindow + bytes > readBytesLimit {
          ioThrottleEvents := ioThrottleEvents + 1;
          return false;
        }
      }
      return true;
    }

    method Account(bytes: nat, isWrite: bool, now: nat)
      modifies this
      ensures Value() == AccountIo(old(Value()), bytes, isWrite, now)
    {
      RollWindow(now);
      if isWrite {
        writeBytesTotal := writeBytesTotal + bytes;
        writeBytesWindow := writeBytesWindow + bytes;
      } else {
        readBytesTotal := readBytesTotal + bytes;
        readBytesWindow := readBytesWindow + bytes;
      }
    }
  }
}
