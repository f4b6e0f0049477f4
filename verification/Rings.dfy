/** The two ring buffers of the kernel: a thread's mailbox of four messages, which refuses what does
    not fit (kernel/src/syscall_gate.cpp), and a channel's ring of 64 slots, which drops the oldest
    event (kernel/src/event_channel.cpp). */
module Rings {

  const MAILBOX_SIZE: nat := 4
  const RING_SIZE: nat := 64

  // ---- Mailbox ----------------------------------------------------------------------------------

  datatype Mailbox<T> = Mailbox(buf: seq<T>, head: nat, tail: nat, count: nat)

  ghost predicate MailboxOk<T>(b: Mailbox<T>) {
    && |b.buf| == MAILBOX_SIZE && b.head < MAILBOX_SIZE && b.count <= MAILBOX_SIZE
    && b.tail == Slot(b.head, b.count)
  }

  /** The i-th slot after a slot of the mailbox. */
  function Slot(x: nat, i: nat): (r: nat)
    requires x < MAILBOX_SIZE && i <= MAILBOX_SIZE
    ensures r == if x + i < MAILBOX_SIZE then x + i else x + i - MAILBOX_SIZE
  {
    (x + i) % MAILBOX_SIZE
  }

  /** The messages waiting, oldest first. */
  ghost function Queue<T>(b: Mailbox<T>): seq<T>
    requires MailboxOk(b)
  {
    seq(b.count, i requires 0 <= i < b.count => b.buf[Slot(b.head, i)])
  }

  function Put<T>(b: Mailbox<T>, m: T): Mailbox<T>
    requires b.tail < |b.buf| && b.tail < MAILBOX_SIZE
  {
    Mailbox(b.buf[b.tail := m], b.head, Slot(b.tail, 1), b.count + 1)
  }

  function Take<T>(b: Mailbox<T>): Mailbox<T>
    requires b.count > 0 && b.head < MAILBOX_SIZE
  {
    b.(head := Slot(b.head, 1), count := b.count - 1)
  }

  /** Messages are delivered in the order sent. */
  lemma PutQueues<T>(b: Mailbox<T>, m: T)
    requires MailboxOk(b) && b.count < MAILBOX_SIZE
    ensures MailboxOk(Put(b, m)) && Queue(Put(b, m)) == Queue(b) + [m]
  {
    hide Slot;
    var b' := Put(b, m);
    forall i | 0 <= i < |Queue(b')| ensures Queue(b')[i] == (Queue(b) + [m])[i] { }
  }

  lemma TakeDequeues<T>(b: Mailbox<T>)
    requires MailboxOk(b) && b.count > 0
    ensures MailboxOk(Take(b)) && Queue(b) == [b.buf[b.head]] + Queue(Take(b))
  {
    hide Slot;
    var q := Queue(Take(b));
    forall i | 0 <= i < |q| ensures q[i] == Queue(b)[1..][i] { }
  }

  // ---- Channel ring -----------------------------------------------------------------------------

  datatype Ring<T> = Ring(buf: seq<T>, head: nat, tail: nat)

  ghost predicate RingOk<T>(r: Ring<T>) { |r.buf| == RING_SIZE && r.head < RING_SIZE && r.tail < RING_SIZE }

  /** The i-th position after a position of the ring. */
  function After(x: nat, i: nat): (r: nat)
    requires x < RING_SIZE && i <= RING_SIZE
    ensures r == if x + i < RING_SIZE then x + i else x + i - RING_SIZE
  {
    (x + i) % RING_SIZE
  }

  function Length<T>(r: Ring<T>): (n: nat)
    requires r.head < RING_SIZE && r.tail < RING_SIZE
    ensures n == if r.tail <= r.head then r.head - r.tail else r.head + RING_SIZE - r.tail
  {
    (r.head + RING_SIZE - r.tail) % RING_SIZE
  }

  /** The events in the ring, oldest first. */
  ghost function Events<T>(r: Ring<T>): (s: seq<T>)
    requires RingOk(r)
    ensures |s| == Length(r)
  {
    seq(Length(r), i requires 0 <= i < Length(r) => r.buf[After(r.tail, i)])
  }

  function Push<T>(r: Ring<T>, x: T): Ring<T>
    requires r.head < |r.buf| && r.head < RING_SIZE && r.tail < RING_SIZE
  {
    var next := After(r.head, 1);
    Ring(r.buf[r.head := x], next, if next == r.tail then After(r.tail, 1) else r.tail)
  }

  function Pop<T>(r: Ring<T>): Ring<T>
    requires r.tail < RING_SIZE
  {
    r.(tail := After(r.tail, 1))
  }

  /** The last n elements. */
  function Newest<T>(s: seq<T>, n: nat): seq<T> { if |s| <= n then s else s[|s| - n..] }

  /** The ring keeps the newest 63 events, in order. */
  lemma PushKeepsNewest<T>(r: Ring<T>, x: T)
    requires RingOk(r)
    ensures RingOk(Push(r, x)) && Events(Push(r, x)) == Newest(Events(r) + [x], RING_SIZE - 1)
    ensures Push(r, x).head != Push(r, x).tail
  {
    hide After, Length;
    var r' := Push(r, x);
    if Length(r) == RING_SIZE - 1 {
      forall i | 0 <= i < |Events(r')| ensures Events(r')[i] == (Events(r)[1..] + [x])[i] { }
      assert Events(r') == Events(r)[1..] + [x];
    } else {
      forall i | 0 <= i < |Events(r')| ensures Events(r')[i] == (Events(r) + [x])[i] { }
    }
  }

  lemma PopDequeues<T>(r: Ring<T>)
    requires RingOk(r) && r.head != r.tail
    ensures RingOk(Pop(r)) && Events(r) == [r.buf[r.tail]] + Events(Pop(r))
  {
    hide After, Length;
    var r' := Pop(r);
    forall i | 0 <= i < |Events(r')| ensures Events(r')[i] == Events(r)[1..][i] { }
  }

  lemma EmptyRing<T>(r: Ring<T>)
    requires RingOk(r)
    ensures r.head == r.tail <==> Events(r) == []
  {
    hide After, Length;
  }
}
