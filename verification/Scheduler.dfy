/**
 The linked scheduler: four circular lists threaded through the thread objects
 and tracked by their tails.  `Abs()` reads the lists back as the queues of
 `SchedSpec`, and every operation is proved to take one `SchedSpec` step.
 */
module Scheduler {
  import opened SchedSpec
  import SchedRuns
  import TaskCeilings

  class Thread {
    var rqNext: Thread?
    var state: ThreadState
    var intent: nat
    var budget: nat
    var used: nat
    const task: TaskCeilings.Task?

    /** A freshly created thread is ready and in no queue. */
    constructor (task: TaskCeilings.Task?)
      ensures rqNext == null && Record() == FRESH && this.task == task
    {
      this.task := task;
      rqNext, state, intent, budget, used := null, Ready, 0, 0, 0;
    }

    function Record(): Info
      reads `state, `intent, `budget, `used
    {
      Info(state, intent, budget, used)
    }
  }

  // ------------------------------------------------------- rings as values

  type Links = map<Thread, Thread?>

  /** The ring with this tail spells `q`, read from the thread after the tail. */
  ghost predicate RingOk(q: seq<Thread>, tail: Thread?, next: Links)
  {
    && (forall t :: t in q ==> t in next)
    && Distinct(q)
    && (if q == [] then tail == null
        else
          && tail == q[|q| - 1]
          && (forall i :: 0 <= i < |q| - 1 ==> next[q[i]] == q[i + 1])
          && next[q[|q| - 1]] == q[0])
  }

  ghost predicate InSome(queues: seq<seq<Thread>>, t: Thread) {
    exists c :: 0 <= c < |queues| && t in queues[c]
  }

  ghost predicate RingAt(queues: seq<seq<Thread>>, tails: seq<Thread?>, next: Links, c: nat)
    requires |queues| == |tails|
  {
    c < |queues| ==> RingOk(queues[c], tails[c], next)
  }

  ghost predicate ApartAt(queues: seq<seq<Thread>>, c: nat, d: nat) {
    c < |queues| && d < |queues| && c != d ==> forall t :: t in queues[c] ==> t !in queues[d]
  }

  ghost predicate LinkOk(queues: seq<seq<Thread>>, next: Links, t: Thread) {
    t in next && next[t] != null ==> InSome(queues, t)
  }

  /** The four rings spell the four queues, no thread is in two, and only queued threads are linked. */
  ghost predicate RingsOk(queues: seq<seq<Thread>>, tails: seq<Thread?>, next: Links)
  {
    && |queues| == |tails| == INTENT_COUNT
    && (forall c: nat :: RingAt(queues, tails, next, c))
    && (forall c: nat, d: nat :: ApartAt(queues, c, d))
    && (forall t :: t in next ==> LinkOk(queues, next, t))
  }

  /** The links after `t` has been put behind the tail. */
  ghost function LinkedIn(next: Links, tail: Thread?, t: Thread): Links
    requires tail != null ==> tail in next
  {
    if tail == null then next[t := t] else var p: Thread := tail; next[t := next[p]][p := t]
  }

  /** The links after `t`, preceded by `prev`, has been taken out of its ring. */
  ghost function Unlinked(next: Links, prev: Thread, t: Thread): Links
    requires t in next
  {
    if prev == t then next[t := null] else next[prev := next[t]][t := null]
  }

  /** The tail after `t`, preceded by `prev`, has been taken out. */
  function TailWithout(tail: Thread?, prev: Thread, t: Thread): Thread? {
    if prev == t then null else if tail == t then prev else tail
  }

  lemma {:induction false} LinkedIffQueued(queues: seq<seq<Thread>>, tails: seq<Thread?>, next: Links, t: Thread)
    requires RingsOk(queues, tails, next) && t in next
    ensures next[t] != null <==> InSome(queues, t)
  {
    assert LinkOk(queues, next, t);
    if InSome(queues, t) {
      var c :| 0 <= c < |queues| && t in queues[c];
      var q := queues[c];
      assert RingAt(queues, tails, next, c);
      var i :| 0 <= i < |q| && q[i] == t;
      assert next[t] == if i < |q| - 1 then q[i + 1] else q[0];
    }
  }

  /** Exchanging one ring for another, touching no link of the other three. */
  lemma {:induction false} ReplaceRing(queues: seq<seq<Thread>>, tails: seq<Thread?>, next: Links,
                    c: nat, q: seq<Thread>, tail: Thread?, next': Links)
    requires RingsOk(queues, tails, next) && c < INTENT_COUNT
    requires RingOk(q, tail, next') && next'.Keys == next.Keys
    requires forall d, u :: 0 <= d < INTENT_COUNT && d != c && u in queues[d] ==> u !in q
    requires forall u :: u in next && u !in queues[c] && u !in q ==> next'[u] == next[u]
    requires forall u :: u in queues[c] && u !in q ==> u in next' && next'[u] == null
    ensures RingsOk(queues[c := q], tails[c := tail], next')
  {
    var queues', tails' := queues[c := q], tails[c := tail];
    forall d: nat
      ensures RingAt(queues', tails', next', d)
    {
      assert RingAt(queues, tails, next, d);
      assert ApartAt(queues, d, c);
    }
    forall d: nat, e: nat
      ensures ApartAt(queues', d, e)
    {
      assert ApartAt(queues, d, e);
    }
    forall u | u in next'
      ensures LinkOk(queues', next', u)
    {
      assert LinkOk(queues, next, u);
      if next'[u] != null {
        if u in q {
          assert u in queues'[c];
        } else {
          var d :| 0 <= d < |queues| && u in queues[d];
          assert u in queues'[d];
        }
      }
    }
  }

  lemma {:induction false} InsertRing(queues: seq<seq<Thread>>, tails: seq<Thread?>, next: Links, c: nat, t: Thread)
    requires RingsOk(queues, tails, next) && c < INTENT_COUNT && t in next && next[t] == null
    ensures tails[c] != null ==> tails[c] in next
    ensures RingsOk(queues[c := queues[c] + [t]], tails[c := t], LinkedIn(next, tails[c], t))
  {
    LinkedIffQueued(queues, tails, next, t);
    var tail, q := tails[c], queues[c];
    assert RingAt(queues, tails, next, c);
    assert forall d :: 0 <= d < INTENT_COUNT ==> t !in queues[d];
    assert tail != null ==> tail in q;
    var next' := LinkedIn(next, tail, t);
    assert RingOk(q + [t], t, next');
    forall d, u | 0 <= d < INTENT_COUNT && d != c && u in queues[d]
      ensures u !in q + [t]
    {
      assert ApartAt(queues, d, c);
    }
    ReplaceRing(queues, tails, next, c, q + [t], t, next');
  }

  /** A thread in no queue can join the known threads unlinked. */
  lemma {:induction false} AddRing(queues: seq<seq<Thread>>, tails: seq<Thread?>, next: Links, t: Thread)
    requires RingsOk(queues, tails, next) && t !in next
    ensures RingsOk(queues, tails, next[t := null])
  {
    var next' := next[t := null];
    forall c: nat ensures RingAt(queues, tails, next', c) {
      assert RingAt(queues, tails, next, c);
    }
    forall u | u in next' ensures LinkOk(queues, next', u) {
      assert u != t ==> LinkOk(queues, next, u);
    }
  }

  /** Unlinking the thread at place `k`, whose predecessor on the ring is `prev`. */
  lemma {:induction false} RemoveOne(q: seq<Thread>, tail: Thread?, next: Links, k: nat)
    requires RingOk(q, tail, next) && k < |q|
    ensures var t, prev := q[k], q[if k == 0 then |q| - 1 else k - 1];
            && t in next && prev in next
            && t !in q[..k] + q[k + 1..]
            && RingOk(q[..k] + q[k + 1..],
                      TailWithout(tail, prev, t),
                      Unlinked(next, prev, t))
  {
    var q' := q[..k] + q[k + 1..];
    assert forall i :: 0 <= i < |q'| ==> q'[i] == q[if i < k then i else i + 1];
  }

  lemma {:induction false} RemoveRing(queues: seq<seq<Thread>>, tails: seq<Thread?>, next: Links, c: nat, k: nat, prev: Thread, t: Thread)
    requires RingsOk(queues, tails, next) && c < INTENT_COUNT && k < |queues[c]|
    requires t == queues[c][k] && prev == queues[c][if k == 0 then |queues[c]| - 1 else k - 1]
    ensures t in next && prev in next
    ensures RingsOk(queues[c := queues[c][..k] + queues[c][k + 1..]],
                    tails[c := TailWithout(tails[c], prev, t)], Unlinked(next, prev, t))
  {
    var q := queues[c];
    assert RingAt(queues, tails, next, c);
    RemoveOne(q, tails[c], next, k);
    var q' := q[..k] + q[k + 1..];
    forall u | u in q
      ensures u in q' || u == t
    {
      var j :| 0 <= j < |q| && q[j] == u;
      assert j != k ==> u == q'[if j < k then j else j - 1];
    }
    assert forall u :: u in q' ==> u in q;
    forall d, u | 0 <= d < INTENT_COUNT && d != c && u in queues[d]
      ensures u !in q'
    {
      assert ApartAt(queues, d, c);
    }
    ReplaceRing(queues, tails, next, c, q', TailWithout(tails[c], prev, t), Unlinked(next, prev, t));
  }

  // -------------------------------------------------------------- the class

  class Scheduler {
    var tails: seq<Thread?>
    const boot: Thread
    var cursor: nat
    var current: Thread
    var needResched: bool
    var preemptCount: nat
    var ticks: nat

    ghost var threads: set<Thread>
    ghost var queues: seq<seq<Thread>>

    ghost function NextLinks(): Links
      reads `threads, threads`rqNext
    {
      map t | t in threads :: t.rqNext
    }

    ghost function Records(): map<Thread, Info>
      reads `threads, threads`state, threads`intent, threads`budget, threads`used
    {
      map t | t in threads :: t.Record()
    }

    ghost function Abs(): Sched<Thread>
      reads this, threads`state, threads`intent, threads`budget, threads`used
    {
      Sched(queues, cursor, current, boot, Records(), needResched, preemptCount)
    }

    /** The rings in the heap spell the queues. */
    ghost predicate Linked()
      reads `queues, `tails, `threads, threads`rqNext
    {
      RingsOk(queues, tails, NextLinks())
    }

    ghost predicate Valid()
      reads this, threads
    {
      Linked() && Inv(Abs()) && boot.task == null
    }

    constructor ()
      ensures Valid() && fresh(boot)
      ensures Abs() == Init(boot)
    {
      var b := new Thread(null);
      b.state := Running;
      boot, current := b, b;
      tails := [null, null, null, null];
      cursor, needResched, preemptCount, ticks := 0, false, 0, 0;
      threads, queues := {b}, [[], [], [], []];
      new;
      SchedRuns.InitHolds(boot);
      assert Abs().info == Init(boot).info;
      assert forall c: nat :: RingAt(queues, tails, NextLinks(), c);
    }

    /** A queued thread is exactly a linked one. */
    lemma {:induction false} LinkMeansQueued(t: Thread)
      requires Linked() && t in threads
      ensures t.rqNext != null <==> Queued(Abs(), t)
    {
      LinkedIffQueued(queues, tails, NextLinks(), t);
      assert InSome(queues, t) <==> Queued(Abs(), t);
    }

    /** The link updates of an append: behind the tail of class `c`, and the new tail. */
    method Append(c: nat, t: Thread)
      requires c < |tails| == |queues| && t in threads && (tails[c] != null ==> tails[c] in threads)
      modifies `tails, `queues, threads`rqNext
      ensures NextLinks() == LinkedIn(old(NextLinks()), old(tails[c]), t)
      ensures tails == old(tails)[c := t]
      ensures queues == old(queues)[c := old(queues)[c] + [t]]
      ensures Records() == old(Records())
    {
      var tail := tails[c];
      if tail == null {
        t.rqNext := t;
      } else {
        t.rqNext := tail.rqNext;
        tail.rqNext := t;
      }
      tails := tails[c := t];
      queues := queues[c := queues[c] + [t]];
    }

    /** The link updates of a removal: `t`, at place `k` of class `c`, follows `prev`. */
    method Unlink(c: nat, ghost k: nat, prev: Thread, t: Thread)
      requires c < |tails| == |queues| && k < |queues[c]| && t in threads && prev in threads
      modifies `tails, `queues, threads`rqNext
      ensures NextLinks() == Unlinked(old(NextLinks()), prev, t)
      ensures tails == old(tails)[c := TailWithout(old(tails[c]), prev, t)]
      ensures queues == old(queues)[c := old(queues)[c][..k] + old(queues)[c][k + 1..]]
      ensures t.rqNext == null
      ensures Records() == old(Records())
    {
      if t == prev {
        tails := tails[c := null];
      } else {
        prev.rqNext := t.rqNext;
        if tails[c] == t {
          tails := tails[c := prev];
        }
      }
      t.rqNext := null;
      queues := queues[c := queues[c][..k] + queues[c][k + 1..]];
    }

    /** Queue `t` under its class; an already linked thread is refused (the kernel panics). */
    method InsertTail(t: Thread) returns (ok: bool)
      requires Linked() && t in threads
      modifies `tails, `queues, threads`rqNext
      ensures Linked()
      ensures ok <==> old(t.rqNext == null)
      ensures Abs() == if ok then SchedSpec.InsertTail(old(Abs()), t) else old(Abs())
    {
      if t.rqNext != null { return false; }
      var c := Sanitize(t.intent);
      InsertRing(queues, tails, NextLinks(), c, t);
      Append(c, t);
      assert RingsOk(queues, tails, NextLinks());
      ok := true;
    }

    /** Unlink the thread at place `k` of class `c`, whose predecessor on the ring is `prev`. */
    method RemoveAt(c: nat, ghost k: nat, prev: Thread, t: Thread)
      requires Linked() && c < INTENT_COUNT && k < |queues[c]| && t == queues[c][k]
      requires prev == queues[c][if k == 0 then |queues[c]| - 1 else k - 1]
      modifies `tails, `queues, threads`rqNext
      ensures Linked() && t in threads && t.rqNext == null
      ensures queues == old(queues)[c := old(queues)[c][..k] + old(queues)[c][k + 1..]]
      ensures Records() == old(Records())
    {
      RemoveRing(queues, tails, NextLinks(), c, k, prev, t);
      Unlink(c, k, prev, t);
      assert RingsOk(queues, tails, NextLinks());
    }

    /** Take the thread after the tail out of one ring. */
    method PopHead(c: nat) returns (t: Thread?)
      requires Linked() && c < INTENT_COUNT
      modifies `tails, threads`rqNext, `queues
      ensures Linked()
      ensures t == null <==> old(queues[c]) == []
      ensures t != null ==> t == old(queues[c])[0] && t in threads && t.rqNext == null
      ensures queues == if t == null then old(queues) else old(queues)[c := old(queues)[c][1..]]
      ensures Records() == old(Records())
    {
      var tail := tails[c];
      assert RingAt(queues, tails, NextLinks(), c);
      if tail == null { return null; }
      assert queues[c][..0] + queues[c][1..] == queues[c][1..];
      t := tail.rqNext;
      RemoveAt(c, 0, tail, t);
    }

    lemma {:induction false} TailTells(c: nat)
      requires Linked() && c < INTENT_COUNT
      ensures |tails| == |queues| == INTENT_COUNT
      ensures tails[c] == null <==> queues[c] == []
    {
      assert RingAt(queues, tails, NextLinks(), c);
    }

    /** One ring as the heap has it. */
    lemma {:induction false} RingInHeap(c: nat)
      requires Linked() && c < INTENT_COUNT
      ensures |tails| == |queues| == INTENT_COUNT
      ensures tails[c] == null <==> queues[c] == []
      ensures queues[c] != [] ==> tails[c] == queues[c][|queues[c]| - 1]
      ensures Distinct(queues[c])
      ensures forall i :: 0 <= i < |queues[c]| ==>
                && queues[c][i] in threads
                && queues[c][i].rqNext == queues[c][if i + 1 < |queues[c]| then i + 1 else 0]
    {
      assert RingAt(queues, tails, NextLinks(), c);
      assert forall i :: 0 <= i < |queues[c]| ==> queues[c][i] in NextLinks();
    }

    /** Search one ring, tail first, for `t`; `k` is where it is. */
    method Find(c: nat, t: Thread) returns (found: bool, prev: Thread, ghost k: nat)
      requires Linked() && c < INTENT_COUNT && queues[c] != []
      ensures found <==> t in queues[c]
      ensures found ==> k < |queues[c]| && t == queues[c][k]
      ensures found ==> prev == queues[c][if k == 0 then |queues[c]| - 1 else k - 1]
    {
      ghost var q := queues[c];
      RingInHeap(c);
      var tail: Thread := tails[c];
      prev, k := tail, 0;
      assert q[|q| - 1].rqNext == q[0];
      var cur: Thread := tail.rqNext;
      while true
        invariant 0 <= k < |q| && cur == q[k] && prev == q[if k == 0 then |q| - 1 else k - 1]
        invariant forall i :: 0 <= i < k ==> q[i] != t
        decreases |q| - k
      {
        if cur == t { return true, prev, k; }
        assert q[k].rqNext == q[if k + 1 < |q| then k + 1 else 0];
        prev := cur;
        cur := cur.rqNext;
        if prev == tail { return false, prev, k; }
        k := k + 1;
      }
    }

    /** Search every ring for `t`. */
    method Locate(t: Thread) returns (found: bool, c: nat, prev: Thread, ghost k: nat)
      requires Linked()
      ensures |queues| == INTENT_COUNT
      ensures !found ==> forall d :: 0 <= d < INTENT_COUNT ==> t !in queues[d]
      ensures found ==> c < INTENT_COUNT && k < |queues[c]| && t == queues[c][k]
      ensures found ==> prev == queues[c][if k == 0 then |queues[c]| - 1 else k - 1]
    {
      TailTells(0);
      found, c, prev, k := false, 0, t, 0;
      while c < INTENT_COUNT
        invariant c <= INTENT_COUNT && !found
        invariant forall d :: 0 <= d < c ==> t !in queues[d]
      {
        TailTells(c);
        if tails[c] != null {
          found, prev, k := Find(c, t);
          if found { return; }
        }
        c := c + 1;
      }
    }

    /** Take `t` out of whichever ring holds it: place `k` of class `c`. */
    method Remove(t: Thread) returns (found: bool, ghost c: nat, ghost k: nat)
      requires Linked() && t in threads
      modifies `tails, `queues, threads`rqNext
      ensures Linked() && Records() == old(Records())
      ensures found <==> InSome(old(queues), t)
      ensures !found ==> queues == old(queues)
      ensures found ==> c < INTENT_COUNT && k < |old(queues)[c]| && old(queues)[c][k] == t
      ensures found ==> queues == old(queues)[c := old(queues)[c][..k] + old(queues)[c][k + 1..]]
      ensures found ==> t.rqNext == null
    {
      var i, prev;
      found, i, prev, k := Locate(t);
      c := i;
      if found { RemoveAt(i, k, prev, t); }
    }

    /** The first slot from the cursor whose class has a thread waiting. */
    method FindSlot() returns (found: bool, i: nat)
      requires Linked() && cursor < SLOTS
      ensures found <==> !NothingReady(queues)
      ensures found ==> i == PickOffset(queues, cursor)
    {
      assert |queues| == |tails| == INTENT_COUNT;
      i := 0;
      while i < SLOTS
        invariant i <= SLOTS
        invariant forall j :: 0 <= j < i ==> queues[SlotClass(Slot(cursor, j))] == []
      {
        var c := SlotClass(Slot(cursor, i));
        TailTells(c);
        if tails[c] != null {
          PickOffsetIs(queues, cursor, i);
          return true, i;
        }
        i := i + 1;
      }
      NoSlotServesMeansNothingReady(queues, cursor);
      found := false;
    }

    /** The lowest class with a thread waiting, or the background class. */
    method FirstNonEmpty() returns (c: nat)
      requires Linked()
      ensures c < INTENT_COUNT
      ensures NothingReady(queues) ==> c == BACKGROUND
    {
      assert |queues| == |tails| == INTENT_COUNT;
      c := 0;
      while c < INTENT_COUNT
        invariant c <= INTENT_COUNT
      {
        TailTells(c);
        if tails[c] != null { return; }
        c := c + 1;
      }
      c := BACKGROUND;
    }

    /** Choose a class, moving the cursor past its slot. */
    method PickIntent() returns (c: nat)
      requires Linked() && cursor < SLOTS
      modifies `cursor
      ensures c < INTENT_COUNT
      ensures NothingReady(queues) ==> c == BACKGROUND && cursor == old(cursor)
      ensures !NothingReady(queues) ==>
                && c == PickClass(queues, old(cursor))
                && cursor == Slot(old(cursor), PickOffset(queues, old(cursor)) + 1)
    {
      assert |queues| == |tails| == INTENT_COUNT;
      var found, i := FindSlot();
      if found {
        NextSlot(cursor, i);
        var idx := Slot(cursor, i);
        cursor := (idx + 1) % SLOTS;
        return SlotClass(idx);
      }
      // Every class owns a slot, so this second scan finds nothing either.
      c := FirstNonEmpty();
    }

    /** Take the best waiting thread out of the queues; the running thread when none waits. */
    method PickNext() returns (t: Thread)
      requires Linked() && cursor < SLOTS && current in threads
      modifies `cursor, `tails, `queues, threads`rqNext
      ensures Linked() && t in threads && cursor < SLOTS
      ensures t == Best(old(Abs()))
      ensures Abs() == Popped(old(Abs()))
    {
      var c := PickIntent();
      var h := PopHead(c);
      t := if h == null then current else h;
    }

    method Write(t: Thread, i: Info)
      requires t in threads
      modifies t`state, t`intent, t`budget, t`used
      ensures Abs() == Record(old(Abs()), t, i)
    {
      t.state, t.intent, t.budget, t.used := i.state, i.intent, i.budget, i.used;
    }

    /** Make a thread ready and queue it; an already linked thread is refused (the kernel panics). */
    method Ready(t: Thread) returns (ok: bool)
      requires Linked() && t in threads
      modifies `tails, `queues, threads`rqNext, t`state, t`intent, t`budget, t`used
      ensures Linked()
      ensures ok <==> old(t.rqNext == null)
      ensures ok ==> Abs() == MakeReady(old(Abs()), t)
    {
      Write(t, t.Record().(state := ThreadState.Ready));
      ok := InsertTail(t);
    }

    /** Hand the processor to `t`, with a full slice for its class. */
    method Start(t: Thread)
      requires t in threads
      modifies `current, t`state, t`intent, t`budget, t`used
      ensures Abs() == Dispatch(old(Abs()), t)
    {
      Write(t, Started(t.Record()));
      current := t;
    }

    /** Give the processor to the best waiting thread, or keep it when none waits. */
    method RunBest()
      requires Linked() && cursor < SLOTS && current in threads
      modifies `cursor, `current, `tails, `queues, threads`rqNext, threads`state, threads`intent, threads`budget, threads`used
      ensures Linked()
      ensures Abs() == SwitchToBest(old(Abs()))
    {
      var next := PickNext();
      Start(next);
    }

    /** Put the running thread back in its queue, unless it is the bootstrap thread or has exited. */
    method RequeueCurrent()
      requires Linked() && current in threads && current.rqNext == null
      modifies `needResched, `tails, `queues, threads`rqNext, threads`state, threads`intent, threads`budget, threads`used
      ensures Linked()
      ensures Abs() == Requeue(old(Abs()).(needResched := false))
    {
      needResched := false;
      if current != boot && current.state == Running {
        var ok := Ready(current);
        assert ok;
      }
    }

    method Switch()
      requires Linked() && cursor < SLOTS && current in threads && current.rqNext == null
      modifies this, threads
      ensures Linked() && threads == old(threads)
      ensures Abs() == Reschedule(old(Abs()))
    {
      RequeueCurrent();
      RunBest();
    }

    /** The assertion each rescheduling entry point makes first. */
    lemma {:induction false} CurrentUnlinked()
      requires Valid()
      ensures current in threads && current.rqNext == null
    {
      SchedRuns.CurrentNotQueued(Abs());
      assert current in Abs().info;
      LinkMeansQueued(current);
    }

    // ---------------------------------------------------- the public operations

    method Yield()
      requires Valid()
      modifies this, threads
      ensures Valid() && threads == old(threads)
      ensures Abs() == Next(old(Abs()), Step.Yield)
    {
      SchedRuns.StepKeepsInv(Abs(), Step.Yield);
      CurrentUnlinked();
      Switch();
    }

    method IrqExit()
      requires Valid()
      modifies this, threads
      ensures Valid() && threads == old(threads)
      ensures Abs() == Next(old(Abs()), Step.Irq)
    {
      SchedRuns.StepKeepsInv(Abs(), Step.Irq);
      CurrentUnlinked();
      if needResched && preemptCount == 0 {
        Switch();
      }
    }

    method BlockCurrent()
      requires Valid() && current != boot
      modifies this, threads
      ensures Valid() && threads == old(threads)
      ensures Abs() == Next(old(Abs()), Block)
    {
      SchedRuns.StepKeepsInv(Abs(), Block);
      SchedRuns.BlockThenPick(Abs());
      CurrentUnlinked();
      Write(current, current.Record().(state := Blocked));
      RunOther();
    }

    /** Hand over to another thread; the running thread goes back to running when there is none. */
    method RunOther()
      requires Linked() && cursor < SLOTS && current in threads
      modifies `cursor, `current, `tails, `queues, threads`rqNext, threads`state, threads`intent, threads`budget, threads`used
      ensures Linked()
      ensures Abs() == if Best(old(Abs())) == old(current) then SchedSpec.SetState(Popped(old(Abs())), old(current), Running)
                       else Dispatch(Popped(old(Abs())), Best(old(Abs())))
    {
      var prev := current;
      var next := PickNext();
      if next == prev {
        Write(prev, prev.Record().(state := Running));
      } else {
        Start(next);
      }
    }

    method Wake(t: Thread)
      requires Valid() && t in threads
      modifies this, threads
      ensures Valid() && threads == old(threads)
      ensures Abs() == Next(old(Abs()), Step.Wake(t))
    {
      SchedRuns.StepKeepsInv(Abs(), Step.Wake(t));
      LinkMeansQueued(t);
      if t.state == Blocked {
        assert t.rqNext == null by { if Queued(Abs(), t) { SchedRuns.QueuedIsReady(Abs(), t); } }
        var ok := Ready(t);
        assert ok;
      }
    }

    method Enqueue(t: Thread)
      requires Valid() && t in threads && t != current && t.rqNext == null
      modifies this, threads
      ensures Valid() && threads == old(threads)
      ensures Abs() == EnqueueThread(old(Abs()), t)
    {
      LinkMeansQueued(t);
      SchedRuns.StepKeepsInv(Abs(), Step.Enqueue(t));
      if t.state == Dead { return; }
      var ok := Ready(t);
      assert ok;
    }

    /** Change a thread's class, moving it to the tail of its new queue when it is queued. */
    method SetIntent(t: Thread, raw: nat)
      requires Valid() && t in threads
      modifies this, threads
      ensures Valid() && threads == old(threads)
      ensures Abs() == Next(old(Abs()), Step.SetIntent(t, raw))
    {
      SchedRuns.StepKeepsInv(Abs(), Step.SetIntent(t, raw));
      LinkMeansQueued(t);
      var next := Sanitize(raw);
      if t.intent == next { return; }
      if t.state == ThreadState.Ready && t.rqNext != null {
        Refile(t, next);
      } else {
        assert !Queued(Abs(), t) by { if Queued(Abs(), t) { SchedRuns.QueuedIsReady(Abs(), t); } }
        Write(t, t.Record().(intent := next));
      }
    }

    method Refile(t: Thread, next: nat)
      requires Valid() && t in threads && Queued(Abs(), t)
      modifies `tails, `queues, threads`rqNext, t`state, t`intent, t`budget, t`used
      ensures Linked()
      ensures Abs() == SchedSpec.InsertTail(Record(Dequeue(old(Abs()), t), t, old(t.Record()).(intent := next)), t)
    {
      TakeOut(t);
      Write(t, t.Record().(intent := next));
      var ok := InsertTail(t);
      assert ok;
    }

    /** Take a queued thread out of its own queue. */
    method TakeOut(t: Thread)
      requires Valid() && t in threads && Queued(Abs(), t)
      modifies `tails, `queues, threads`rqNext
      ensures Linked() && t.rqNext == null
      ensures Abs() == Dequeue(old(Abs()), t)
    {
      SchedRuns.QueuedIsReady(Abs(), t);
      ghost var s := Abs();
      var found, c, k := Remove(t);
      assert QueueOk(s, c);
      SchedRuns.WithoutIs(s.queues[c], t, k);
    }

    method Create(task: TaskCeilings.Task?) returns (t: Thread)
      requires Valid()
      modifies this
      ensures Valid() && fresh(t) && t.task == task && threads == old(threads) + {t}
      ensures Abs() == Next(old(Abs()), Step.Create(t))
    {
      t := new Thread(task);
      SchedRuns.StepKeepsInv(Abs(), Step.Create(t));
      Adopt(t);
    }

    method Adopt(t: Thread)
      requires Linked() && t !in threads && t.rqNext == null
      modifies `threads
      ensures Linked() && threads == old(threads) + {t}
      ensures Abs() == Record(old(Abs()), t, t.Record())
    {
      AddRing(queues, tails, NextLinks(), t);
      threads := threads + {t};
      assert NextLinks() == old(NextLinks())[t := null];
      assert Records() == old(Records())[t := t.Record()];
    }

    method Exit()
      requires Valid()
      modifies this, threads
      ensures Valid() && threads == old(threads)
      ensures Abs() == Next(old(Abs()), Step.Exit)
    {
      SchedRuns.StepKeepsInv(Abs(), Step.Exit);
      CurrentUnlinked();
      Write(current, current.Record().(state := Dead));
    }

    /** A timer interrupt: charge the running thread and its task, and demote the thread once the task is over its ceiling. */
    method TimerTick() returns (over: bool)
      requires Valid()
      modifies `ticks, `needResched, current`state, current`intent, current`budget, current`used, current.task
      ensures Valid()
      ensures ticks == old(ticks) + 1
      ensures current.task == null ==> !over
      ensures over ==> current != boot
      ensures Abs() == Next(old(Abs()), Tick(over))
      ensures current.task != null ==>
                && current.task.Value() == TaskCeilings.Charge(old(current.task.Value()), ticks)
                && over == TaskCeilings.OverCpu(current.task.Value().lim, current.task.Value().win)
    {
      over := ChargeTask();
      Charge(over);
    }

    method ChargeTask() returns (over: bool)
      requires Valid()
      modifies `ticks, current.task
      ensures Valid() && Abs() == old(Abs()) && ticks == old(ticks) + 1
      ensures current.task == null ==> !over
      ensures over ==> current != boot
      ensures current.task != null ==>
                && current.task.Value() == TaskCeilings.Charge(old(current.task.Value()), ticks)
                && over == TaskCeilings.OverCpu(current.task.Value().lim, current.task.Value().win)
    {
      ticks := ticks + 1;
      if current.task == null { return false; }
      over := current.task.ChargeTick(ticks);
    }

    method Charge(over: bool)
      requires Valid() && (over ==> current != boot)
      modifies `needResched, current`state, current`intent, current`budget, current`used
      ensures Valid()
      ensures Abs() == Next(old(Abs()), Tick(over))
    {
      CurrentUnlinked();
      SchedRuns.StepKeepsInv(Abs(), Tick(over));
      ChargeRecord(over);
    }

    method ChargeRecord(over: bool)
      requires current in threads
      modifies `needResched, current`state, current`intent, current`budget, current`used
      ensures Abs() == SchedSpec.TimerTick(old(Abs()), over)
    {
      var cur := current;
      Write(cur, Ticked(cur.Record(), over));
      if over || cur.budget == 0 || cur.used >= cur.budget {
        needResched := true;
      }
    }
  }
}
