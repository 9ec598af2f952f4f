/** Endpoints as values: sending and receiving through capabilities, and what every run delivers. */
module Ipc {
  import opened CapSpec

  const MSG_MAX: nat := 128
  const TYPE_ENDPOINT: nat := 5
  const R_SEND: Rights := 0x1000
  const R_RECV: Rights := 0x2000

  datatype Msg = Msg(tag: nat, payload: seq<nat>)

  /** The queue of an endpoint, oldest first; a waiter of zero is none. */
  datatype Queue = Queue(msgs: seq<Msg>, closed: bool, waiter: nat)

  datatype IpcStatus = IpcOk | IpcInvalid | IpcRights | IpcClosed | IpcNoMem | IpcEmpty | IpcBlocked

  // --------------------------------------------------------------- one endpoint

  /** Queue a message and take the waiter off, who is to be woken. */
  function Push(q: Queue, m: Msg): Queue { q.(msgs := q.msgs + [m], waiter := 0) }

  function Send(q: Queue, m: Msg, mem: bool): (Queue, IpcStatus) {
    if |m.payload| > MSG_MAX then (q, IpcInvalid)
    else if q.closed then (q, IpcClosed)
    else if !mem then (q, IpcNoMem)
    else (Push(q, m), IpcOk)
  }

  datatype Received = Got(msg: Msg) | Nothing(status: IpcStatus)

  function TryReceive(q: Queue): (Queue, Received) {
    if q.msgs != [] then (q.(msgs := q.msgs[1..]), Got(q.msgs[0]))
    else if q.closed then (q, Nothing(IpcClosed))
    else (q, Nothing(IpcEmpty))
  }

  /** One round of a blocking receive by thread `cur`: take a message, give up, or become the waiter. */
  function Receive(q: Queue, cur: nat): (Queue, Received) {
    if q.msgs != [] then (q.(msgs := q.msgs[1..]), Got(q.msgs[0]))
    else if q.closed then (q, Nothing(IpcClosed))
    else if cur == 0 then (q, Nothing(IpcInvalid))
    else if q.waiter != 0 && q.waiter != cur then (q, Nothing(IpcRights))
    else (q.(waiter := cur), Nothing(IpcBlocked))
  }

  // ----------------------------------------------------------------------- runs

  /** The endpoint that a handle names, with the rights that are needed. */
  function EndpointOf(caps: Table, h: nat, need: Rights): (r: (nat, IpcStatus))
    requires Sized(caps)
    ensures r.1 == IpcOk ==> r.0 != 0
  {
    var e := Lookup(caps, h, need);
    if e.Failed? then (0, IpcRights)
    else if e.entry.cap.kind != TYPE_ENDPOINT || e.entry.cap.obj == 0 then (0, IpcInvalid)
    else (e.entry.cap.obj, IpcOk)
  }

  datatype Event =
    | SendTo(caps: Table, h: nat, msg: Msg, mem: bool)
    | TryFrom(caps: Table, h: nat)
    | ReceiveFrom(caps: Table, h: nat, cur: nat)

  /** The endpoints, all that was ever sent to and received from each, and the message objects in existence. */
  datatype State = State(eps: map<nat, Queue>, sent: map<nat, seq<Msg>>, received: map<nat, seq<Msg>>, live: nat)

  ghost predicate Enabled(s: State, e: Event) {
    && Sized(e.caps)
    && forall h, need :: EndpointOf(e.caps, h, need).1 == IpcOk ==> EndpointOf(e.caps, h, need).0 in s.eps
  }

  function History(m: map<nat, seq<Msg>>, p: nat): seq<Msg> { if p in m then m[p] else [] }

  function Arrive(s: State, p: nat, m: Msg, mem: bool): State
    requires p in s.eps
  {
    var (q, st) := Send(s.eps[p], m, mem);
    if st != IpcOk then s
    else s.(eps := s.eps[p := q], sent := s.sent[p := History(s.sent, p) + [m]], live := s.live + 1)
  }

  function Leave(s: State, p: nat, r: (Queue, Received)): State {
    if r.1.Got?
    then s.(eps := s.eps[p := r.0], received := s.received[p := History(s.received, p) + [r.1.msg]],
            live := if s.live == 0 then 0 else s.live - 1)
    else s.(eps := s.eps[p := r.0])
  }

  ghost function Next(s: State, e: Event): State
    requires Enabled(s, e)
  {
    match e
    case SendTo(caps, h, msg, mem) =>
      var (p, st) := EndpointOf(caps, h, R_SEND);
      if st != IpcOk then s else Arrive(s, p, msg, mem)
    case TryFrom(caps, h) =>
      var (p, st) := EndpointOf(caps, h, R_RECV);
      if st != IpcOk then s else Leave(s, p, TryReceive(s.eps[p]))
    case ReceiveFrom(caps, h, cur) =>
      var (p, st) := EndpointOf(caps, h, R_RECV);
      if st != IpcOk then s else Leave(s, p, Receive(s.eps[p], cur))
  }

  /** The number of messages in all the queues. */
  ghost function Queued(eps: map<nat, Queue>): nat
    decreases |eps|
  {
    if eps == map[] then 0
    else
      var p :| p in eps;
      |eps[p].msgs| + Queued(eps - {p})
  }

  /** Whichever endpoint is counted first, the number is the same. */
  lemma {:induction false} QueuedPick(eps: map<nat, Queue>, p: nat)
    requires p in eps
    ensures Queued(eps) == |eps[p].msgs| + Queued(eps - {p})
    decreases |eps|
  {
    var x :| x in eps && Queued(eps) == |eps[x].msgs| + Queued(eps - {x});
    if x != p {
      QueuedPick(eps - {x}, p);
      assert (eps - {x}) - {p} == (eps - {p}) - {x};
      assert x in eps - {p};
      QueuedPick(eps - {p}, x);
    }
  }

  lemma {:induction false} QueuedUpdate(eps: map<nat, Queue>, p: nat, q: Queue)
    requires p in eps
    ensures Queued(eps[p := q]) + |eps[p].msgs| == Queued(eps) + |q.msgs|
  {
    QueuedPick(eps, p);
    QueuedPick(eps[p := q], p);
    assert eps[p := q] - {p} == eps - {p};
  }

  ghost predicate DeliveredAt(s: State, p: nat) {
    p in s.eps ==>
      && History(s.sent, p) == History(s.received, p) + s.eps[p].msgs
      && forall i :: 0 <= i < |s.eps[p].msgs| ==> |s.eps[p].msgs[i].payload| <= MSG_MAX
  }

  /** What was sent is what was received followed by what is queued, and the live messages are the queued ones. */
  ghost predicate Inv(s: State) {
    (forall p: nat :: DeliveredAt(s, p)) && s.live == Queued(s.eps)
  }

  /** Endpoints just created: nothing sent, nothing queued. */
  ghost function Start(eps: set<nat>): State {
    State(map p | p in eps :: Queue([], false, 0), map[], map[], 0)
  }

  lemma {:induction false} NothingQueued(eps: map<nat, Queue>)
    requires forall p :: p in eps ==> eps[p].msgs == []
    ensures Queued(eps) == 0
    decreases |eps|
  {
    if eps != map[] {
      var p :| p in eps;
      QueuedPick(eps, p);
      NothingQueued(eps - {p});
    }
  }

  lemma {:induction false} StartHolds(eps: set<nat>)
    ensures Inv(Start(eps))
  {
    NothingQueued(Start(eps).eps);
    assert forall p: nat :: DeliveredAt(Start(eps), p);
  }

  lemma {:induction false} ArriveKeepsInv(s: State, p: nat, m: Msg, mem: bool)
    requires Inv(s) && p in s.eps
    ensures Inv(Arrive(s, p, m, mem))
  {
    var s' := Arrive(s, p, m, mem);
    if Send(s.eps[p], m, mem).1 == IpcOk {
      QueuedUpdate(s.eps, p, Push(s.eps[p], m));
      forall k: nat ensures DeliveredAt(s', k) {
        assert DeliveredAt(s, k);
        assert (History(s.received, p) + s.eps[p].msgs) + [m] == History(s.received, p) + (s.eps[p].msgs + [m]);
      }
    }
  }

  lemma {:induction false} LeaveKeepsInv(s: State, p: nat, r: (Queue, Received))
    requires Inv(s) && p in s.eps
    requires if r.1.Got? then s.eps[p].msgs != [] && r.1.msg == s.eps[p].msgs[0] && r.0.msgs == s.eps[p].msgs[1..]
             else r.0.msgs == s.eps[p].msgs
    ensures Inv(Leave(s, p, r))
  {
    var s', q := Leave(s, p, r), s.eps[p];
    QueuedUpdate(s.eps, p, r.0);
    QueuedPick(s.eps, p);
    forall k: nat ensures DeliveredAt(s', k) {
      assert DeliveredAt(s, k);
      if r.1.Got? {
        assert q.msgs == [q.msgs[0]] + q.msgs[1..];
        assert History(s.received, p) + q.msgs == (History(s.received, p) + [q.msgs[0]]) + q.msgs[1..];
      }
    }
  }

  lemma {:induction false} NextKeepsInv(s: State, e: Event)
    requires Inv(s) && Enabled(s, e)
    ensures Inv(Next(s, e))
  {
    match e
    case SendTo(caps, h, msg, mem) =>
      var (p, st) := EndpointOf(caps, h, R_SEND);
      if st == IpcOk { ArriveKeepsInv(s, p, msg, mem); }
    case TryFrom(caps, h) =>
      var (p, st) := EndpointOf(caps, h, R_RECV);
      if st == IpcOk { LeaveKeepsInv(s, p, TryReceive(s.eps[p])); }
    case ReceiveFrom(caps, h, cur) =>
      var (p, st) := EndpointOf(caps, h, R_RECV);
      if st == IpcOk { LeaveKeepsInv(s, p, Receive(s.eps[p], cur)); }
  }

  ghost predicate ValidRun(s: State, es: seq<Event>)
    decreases |es|
  {
    es == [] || (Enabled(s, es[0]) && ValidRun(Next(s, es[0]), es[1..]))
  }

  ghost function Exec(s: State, es: seq<Event>): State
    requires ValidRun(s, es)
    decreases |es|
  {
    if es == [] then s else Exec(Next(s, es[0]), es[1..])
  }

  /** Every message sent is received exactly once, in order and unchanged, or is still queued. */
  lemma {:induction false} ExactlyOnce(s: State, es: seq<Event>)
    requires Inv(s) && ValidRun(s, es)
    ensures Inv(Exec(s, es))
    decreases |es|
  {
    if es != [] {
      NextKeepsInv(s, es[0]);
      ExactlyOnce(Next(s, es[0]), es[1..]);
    }
  }
}
