/** An endpoint with its doubly linked queue of message objects. */
module Endpoint {
  import opened Ipc

  class Message {
    const tag: nat
    const payload: seq<nat>
    var next: Message?
    var prev: Message?

    constructor (m: Msg)
      ensures tag == m.tag && payload == m.payload && next == null && prev == null
    {
      tag, payload, next, prev := m.tag, m.payload, null, null;
    }
  }

  /** Message `k` of the queue is linked to its neighbours. */
  ghost predicate LinkAt(q: seq<Message>, k: nat)
    reads q`next, q`prev
  {
    k < |q| ==>
      && q[k].next == (if k + 1 < |q| then q[k + 1] else null)
      && q[k].prev == (if k > 0 then q[k - 1] else null)
  }

  ghost predicate Linked(q: seq<Message>)
    reads q`next, q`prev
  {
    forall k: nat :: LinkAt(q, k)
  }

  ghost predicate Distinct(q: seq<Message>) {
    forall i, j :: 0 <= i < j < |q| ==> q[i] != q[j]
  }

  ghost function Contents(q: seq<Message>): (r: seq<Msg>)
    ensures |r| == |q|
    ensures forall i :: 0 <= i < |r| ==> r[i] == Msg(q[i].tag, q[i].payload)
  {
    seq(|q|, i requires 0 <= i < |q| => Msg(q[i].tag, q[i].payload))
  }

  lemma {:induction false} ContentsAppend(q: seq<Message>, m: Message)
    ensures Contents(q + [m]) == Contents(q) + [Msg(m.tag, m.payload)]
  {
  }

  lemma {:induction false} ContentsRest(m: Message, q: seq<Message>)
    ensures Contents([m] + q)[0] == Msg(m.tag, m.payload) && Contents([m] + q)[1..] == Contents(q)
  {
  }

  class Port {
    var head: Message?
    var tail: Message?
    var waiter: nat
    var closed: bool
    ghost var queue: seq<Message>

    ghost predicate Valid()
      reads this`head, this`tail, this`queue, queue`next, queue`prev
    {
      && Distinct(queue) && Linked(queue)
      && head == (if queue == [] then null else queue[0])
      && tail == (if queue == [] then null else queue[|queue| - 1])
    }

    ghost function Abs(): Queue
      reads this`queue, this`closed, this`waiter
    {
      Queue(Contents(queue), closed, waiter)
    }

    constructor ()
      ensures Valid() && queue == [] && Abs() == Queue([], false, 0)
    {
      head, tail, waiter, closed, queue := null, null, 0, false, [];
    }

    /** Link a message in at the end. */
    method PushTail(m: Message)
      requires Valid() && m !in queue
      modifies this`head, this`tail, this`queue, m`next, m`prev, queue`next, queue`prev
      ensures Valid() && queue == old(queue) + [m]
    {
      ghost var n := |queue|;
      m.next := null;
      m.prev := tail;
      if tail != null {
        tail.next := m;
      } else {
        head := m;
      }
      tail := m;
      queue := queue + [m];
      forall k: nat ensures LinkAt(queue, k) { assert old(LinkAt(queue, k)); }
    }

    /** Unlink the first message; it leaves with both links null. */
    method PopHead() returns (m: Message?)
      requires Valid()
      modifies this`head, this`tail, this`queue, queue`next, queue`prev
      ensures Valid()
      ensures m == null <==> old(queue) == []
      ensures m == null ==> queue == []
      ensures m != null ==>
                [m] + queue == old(queue) && m.next == null && m.prev == null
    {
      m := head;
      if m == null { return; }
      assert LinkAt(queue, 0);
      var n := m.next;
      head := n;
      if n != null {
        n.prev := null;
      } else {
        tail := null;
      }
      m.next := null;
      m.prev := null;
      assert [m] + queue[1..] == queue;
      queue := queue[1..];
      forall k: nat ensures LinkAt(queue, k) {
        var j := k + 1;
        assert old(LinkAt(queue, j));
      }
    }

    /** Send: copy the message into a new object, queue it, and hand back the waiter to wake. */
    method SendMsg(msg: Msg, mem: bool) returns (status: IpcStatus, woken: nat)
      requires Valid()
      modifies this`head, this`tail, this`queue, this`waiter, queue`next, queue`prev
      ensures Valid()
      ensures (Abs(), status) == Send(old(Abs()), msg, mem)
      ensures woken == if status == IpcOk then old(waiter) else 0
      ensures if status == IpcOk then |queue| == |old(queue)| + 1 && queue[..|old(queue)|] == old(queue) && fresh(queue[|old(queue)|])
              else queue == old(queue)
    {
      woken := 0;
      if |msg.payload| > MSG_MAX { return IpcInvalid, 0; }
      if closed { return IpcClosed, 0; }
      if !mem { return IpcNoMem, 0; }
      var m := new Message(msg);
      ContentsAppend(queue, m);
      PushTail(m);
      woken := waiter;
      waiter := 0;
      return IpcOk, woken;
    }

    method TryReceiveMsg() returns (r: Received)
      requires Valid()
      modifies this`head, this`tail, this`queue, queue`next, queue`prev
      ensures Valid()
      ensures (Abs(), r) == TryReceive(old(Abs()))
    {
      var m := PopHead();
      if m == null { return Nothing(if closed then IpcClosed else IpcEmpty); }
      ContentsRest(m, queue);
      return Got(Msg(m.tag, m.payload));
    }

    /** One round of a blocking receive. */
    method ReceiveMsg(cur: nat) returns (r: Received)
      requires Valid()
      modifies this`head, this`tail, this`queue, this`waiter, queue`next, queue`prev
      ensures Valid()
      ensures (Abs(), r) == Receive(old(Abs()), cur)
    {
      var m := PopHead();
      if m != null {
        ContentsRest(m, queue);
        return Got(Msg(m.tag, m.payload));
      }
      if closed { return Nothing(IpcClosed); }
      if cur == 0 { return Nothing(IpcInvalid); }
      if waiter != 0 && waiter != cur { return Nothing(IpcRights); }
      waiter := cur;
      return Nothing(IpcBlocked);
    }
  }
}
