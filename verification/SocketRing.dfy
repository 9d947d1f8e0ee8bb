/**
 The 20-slot ring of accepted sockets (server/mongoose.c).  `sq_head` and
 `sq_tail` only grow, except that the consumer rebases both by 20 once the tail
 passes the end of the array.

 `Ring` is the value the ring holds while the context's mutex is free;
 `SocketQueue` is the ring itself, with its array and its two counters.
 */
module SocketRing {
  const SLOTS := 20

  // What accept() hands to the master: the connected socket and its two addresses.
  datatype Socket = Socket(sock: int, localAddr: int, remoteAddr: int)

  datatype Ring = Ring(queue: seq<Socket>, head: int, tail: int) {
    ghost predicate Valid() {
      && |queue| == SLOTS
      && 0 <= tail <= SLOTS
      && tail <= head <= tail + SLOTS
    }

    predicate Empty() { head == tail }

    predicate Full() { head - tail >= SLOTS }

    // The sockets waiting to be served, oldest first.
    ghost function Contents(): (c: seq<Socket>)
      requires Valid()
      ensures |c| == head - tail
    {
      seq(head - tail, i requires 0 <= i < head - tail => queue[(tail + i) % SLOTS])
    }

    function Put(s: Socket): Ring
      requires Valid() && !Full()
    {
      Ring(queue[head % SLOTS := s], head + 1, tail)
    }

    function Oldest(): Socket
      requires Valid() && !Empty()
    {
      queue[tail % SLOTS]
    }

    function Take(): Ring
      requires Valid() && !Empty()
    {
      var (h, t) := Rebase(head, tail + 1);
      Ring(queue, h, t)
    }
  }

  // The wrap-around loop at the end of consume_socket.
  function Rebase(head: int, tail: int): (int, int)
    requires tail >= 0
    decreases tail
  {
    if tail > SLOTS then Rebase(head - SLOTS, tail - SLOTS) else (head, tail)
  }

  const EMPTY_RING := Ring(seq(SLOTS, _ => Socket(0, 0, 0)), 0, 0)

  // From a valid ring the wrap-around loop runs at most once.
  lemma RebaseOnce(head: int, tail: int)
    requires 0 <= tail <= SLOTS + 1
    ensures Rebase(head, tail) == if tail == SLOTS + 1 then (head - SLOTS, 1) else (head, tail)
  {
    if tail == SLOTS + 1 {
      assert Rebase(head - SLOTS, 1) == (head - SLOTS, 1);
    }
  }

  // Two positions of the ring that are at most a ring apart use different slots.
  lemma SlotsDiffer(a: int, b: int)
    requires 0 <= a < b < a + SLOTS
    ensures a % SLOTS != b % SLOTS
  {
  }

  lemma SlotShift(a: int)
    requires a >= SLOTS
    ensures (a - SLOTS) % SLOTS == a % SLOTS
  {
  }

  /** Producing appends to the queue, whatever the slot the head wraps to. */
  lemma PutAppends(r: Ring, s: Socket)
    requires r.Valid() && !r.Full()
    ensures r.Put(s).Valid()
    ensures r.Put(s).Contents() == r.Contents() + [s]
  {
    var q := r.Put(s);
    forall i | 0 <= i < r.head - r.tail
      ensures q.Contents()[i] == r.Contents()[i]
    {
      SlotsDiffer(r.tail + i, r.head);
    }
  }

  /** Consuming removes the oldest socket; the rebase by 20 moves no socket to another slot. */
  lemma TakeRemovesOldest(r: Ring)
    requires r.Valid() && !r.Empty()
    ensures r.Take().Valid()
    ensures [r.Oldest()] + r.Take().Contents() == r.Contents()
  {
    var q := r.Take();
    RebaseOnce(r.head, r.tail + 1);
    assert r.Contents()[0] == r.Oldest();
    forall i | 0 <= i < q.head - q.tail
      ensures q.Contents()[i] == r.Contents()[i + 1]
    {
      if r.tail + 1 > SLOTS {
        SlotShift(r.tail + 1 + i);
      }
    }
  }

  class SocketQueue {
    const queue: array<Socket>
    var sqHead: int
    var sqTail: int

    ghost function Abs(): Ring
      reads this, queue
    {
      Ring(queue[..], sqHead, sqTail)
    }

    ghost predicate Valid()
      reads this, queue
    {
      queue.Length == SLOTS && Abs().Valid()
    }

    constructor ()
      ensures Valid() && fresh(queue)
      ensures Abs() == EMPTY_RING
    {
      queue := new Socket[SLOTS](_ => Socket(0, 0, 0));
      sqHead, sqTail := 0, 0;
      new;
      assert queue[..] == EMPTY_RING.queue;
    }

    // produce_socket between the wait loop and the signal.
    method Produce(sp: Socket)
      requires Valid() && !Abs().Full()
      modifies this, queue
      ensures Valid()
      ensures Abs() == old(Abs()).Put(sp)
      ensures Abs().Contents() == old(Abs().Contents()) + [sp]
    {
      PutAppends(Abs(), sp);
      queue[sqHead % SLOTS] := sp;
      sqHead := sqHead + 1;
      assert queue[..] == old(queue[..])[old(sqHead) % SLOTS := sp];
    }

    // consume_socket between the wait loop and the signal.
    method Consume() returns (sp: Socket)
      requires Valid() && !Abs().Empty()
      modifies this
      ensures Valid()
      ensures sp == old(Abs()).Oldest() && Abs() == old(Abs()).Take()
      ensures [sp] + Abs().Contents() == old(Abs().Contents())
    {
      TakeRemovesOldest(Abs());
      sp := queue[sqTail % SLOTS];
      sqTail := sqTail + 1;
      while sqTail > SLOTS
        invariant 0 <= sqTail
        invariant Rebase(sqHead, sqTail) == Rebase(old(sqHead), old(sqTail) + 1)
        decreases sqTail
      {
        sqTail := sqTail - SLOTS;
        sqHead := sqHead - SLOTS;
      }
    }
  }
}
