/**
  One level of the active-message transport: per-destination send buffers,
  messages in flight, and the counting of acknowledgements. The library uses it
  twice, between groups and inside a group.
*/
module AmlLink {

  /** What a handler receives. */
  datatype Body = Body(handler: nat, data: seq<nat>)

  /**
    A buffered message: its routing field and its body, and, for the model only,
    the number of barriers its sender had completed when it was sent.
  */
  datatype Item = Item(routing: int, body: Body, interval: nat)

  /** A message on the wire; the tag carries acknowledgements, the data may be empty. */
  datatype Packet = Packet(data: seq<Item>, tag: nat)

  /**
    buf(p, q), owed(p, q): what p has buffered for q, and the buffers from q that
    p has yet to acknowledge. chan(p, q): messages from p to q in flight.
    ack(p): buffers of p not yet acknowledged.
  */
  datatype Link = Link(
    buf: (int, int) -> seq<Item>,
    owed: (int, int) -> nat,
    chan: (int, int) -> seq<Packet>,
    ack: int -> int)

  function Put<T>(f: (int, int) -> T, p: nat, q: nat, v: T): (g: (int, int) -> T)
    ensures g(p, q) == v
    ensures forall a, b :: a != p || b != q ==> g(a, b) == f(a, b)
  {
    (a, b) => if a == p && b == q then v else f(a, b)
  }

  function Set<T>(f: int -> T, p: nat, v: T): (g: int -> T)
    ensures g(p) == v
    ensures forall a :: a != p ==> g(a) == f(a)
  {
    a => if a == p then v else f(a)
  }

  const Idle: Link := Link((p, q) => [], (p, q) => 0, (p, q) => [], p => 0)

  // ----- Operations -----

  function Enqueue(k: Link, p: nat, q: nat, x: Item): (r: Link) {
    k.(buf := Put(k.buf, p, q, k.buf(p, q) + [x]))
  }

  /** flush_buffer, once a send slot is free. */
  function Flush(k: Link, p: nat, q: nat): (r: Link) {
    if k.buf(p, q) == [] && k.owed(p, q) == 0 then k
    else
      Link(
        Put(k.buf, p, q, []),
        Put<nat>(k.owed, p, q, 0),
        Put(k.chan, p, q, k.chan(p, q) + [Packet(k.buf(p, q), k.owed(p, q))]),
        Set(k.ack, p, k.ack(p) + if k.buf(p, q) != [] then 1 else 0))
  }

  function Without<T>(s: seq<T>, i: nat): (r: seq<T>)
    requires i < |s|
  {
    s[..i] + s[i + 1..]
  }

  /** aml_poll: p takes message i from q; inside a barrier it acknowledges at once. */
  function Receive(k: Link, p: nat, q: nat, i: nat, now: bool): (r: Link)
    requires i < |k.chan(q, p)|
  {
    var packet := k.chan(q, p)[i];
    var chan := Put(k.chan, q, p, Without(k.chan(q, p), i));
    var ack := Set(k.ack, p, k.ack(p) - packet.tag);
    if packet.data == [] then k.(chan := chan, ack := ack)
    else if now then k.(chan := Put(chan, p, q, chan(p, q) + [Packet([], 1)]), ack := ack)
    else k.(chan := chan, ack := ack, owed := Put<nat>(k.owed, p, q, k.owed(p, q) + 1))
  }

  // ----- Counting acknowledgements -----

  ghost function DataCount(c: seq<Packet>): (n: nat) {
    if c == [] then 0 else DataCount(c[..|c| - 1]) + if c[|c| - 1].data != [] then 1 else 0
  }

  ghost function TagSum(c: seq<Packet>): (n: nat) {
    if c == [] then 0 else TagSum(c[..|c| - 1]) + c[|c| - 1].tag
  }

  lemma {:induction false} SumsWithout(c: seq<Packet>, i: nat)
    requires i < |c|
    ensures DataCount(c) == DataCount(Without(c, i)) + if c[i].data != [] then 1 else 0
    ensures TagSum(c) == TagSum(Without(c, i)) + c[i].tag
  {
    hide DataCount, TagSum;
    var n := |c| - 1;
    var front := c[..n];
    assert c == front + [c[n]];
    SumsWith(front, c[n]);
    if i == n {
      assert Without(c, i) == front;
    } else {
      SumsWithout(front, i);
      assert Without(c, i) == Without(front, i) + [c[n]];
      SumsWith(Without(front, i), c[n]);
    }
  }

  lemma SumsWith(c: seq<Packet>, x: Packet)
    ensures DataCount(c + [x]) == DataCount(c) + if x.data != [] then 1 else 0
    ensures TagSum(c + [x]) == TagSum(c) + x.tag
  {
    assert (c + [x])[..|c|] == c;
  }

  /** Buffers of p that q has not acknowledged to p: in flight, owed, or acknowledged in flight. */
  ghost function Out(k: Link, p: nat, q: nat): (n: nat) {
    DataCount(k.chan(p, q)) + k.owed(q, p) + TagSum(k.chan(q, p))
  }

  ghost function OutSum(k: Link, p: nat, n: nat): (s: nat) {
    if n == 0 then 0 else OutSum(k, p, n - 1) + Out(k, p, n - 1)
  }

  /** Every process's counter is exact. */
  ghost predicate AcksExact(k: Link, n: nat) {
    forall p :: 0 <= p < n ==> k.ack(p) == OutSum(k, p, n)
  }

  lemma {:induction false} OutSumChange(k: Link, r: Link, p: nat, q: nat, n: nat)
    requires forall b: nat :: b != q ==> Out(r, p, b) == Out(k, p, b)
    ensures OutSum(r, p, n) - OutSum(k, p, n) == if q < n then Out(r, p, q) - Out(k, p, q) else 0
  {
    if n > 0 {
      OutSumChange(k, r, p, q, n - 1);
    }
  }

  /** The counter moves with the one pair that changed. */
  lemma AcksStayExact(k: Link, r: Link, p: nat, q: nat, n: nat)
    requires AcksExact(k, n) && p < n && q < n
    requires forall a: nat, b: nat :: a != p || b != q ==> Out(r, a, b) == Out(k, a, b)
    requires forall a: nat :: a != p ==> r.ack(a) == k.ack(a)
    requires r.ack(p) - k.ack(p) == Out(r, p, q) - Out(k, p, q)
    ensures AcksExact(r, n)
  {
    hide Out;
    forall a: nat | a < n ensures r.ack(a) == OutSum(r, a, n) {
      OutSumChange(k, r, a, q, n);
    }
  }

  lemma FlushOut(k: Link, p: nat, q: nat)
    requires p != q
    ensures var r := Flush(k, p, q);
      && (forall a: nat, b: nat :: a != p || b != q ==> Out(r, a, b) == Out(k, a, b))
      && r.ack(p) - k.ack(p) == Out(r, p, q) - Out(k, p, q)
  {
    hide DataCount, TagSum;
    SumsWith(k.chan(p, q), Packet(k.buf(p, q), k.owed(p, q)));
  }

  lemma ReceiveOut(k: Link, p: nat, q: nat, i: nat, now: bool)
    requires p != q && i < |k.chan(q, p)|
    ensures var r := Receive(k, p, q, i, now);
      && (forall a: nat, b: nat :: a != p || b != q ==> Out(r, a, b) == Out(k, a, b))
      && r.ack(p) - k.ack(p) == Out(r, p, q) - Out(k, p, q)
  {
    hide DataCount, TagSum, Without;
    SumsWithout(k.chan(q, p), i);
    SumsWith(k.chan(p, q), Packet([], 1));
  }

  lemma FlushExact(k: Link, p: nat, q: nat, n: nat)
    requires AcksExact(k, n) && p < n && q < n && p != q
    ensures AcksExact(Flush(k, p, q), n)
  {
    hide Out, OutSum;
    FlushOut(k, p, q);
    AcksStayExact(k, Flush(k, p, q), p, q, n);
  }

  lemma ReceiveExact(k: Link, p: nat, q: nat, i: nat, now: bool, n: nat)
    requires AcksExact(k, n) && p < n && q < n && p != q && i < |k.chan(q, p)|
    ensures AcksExact(Receive(k, p, q, i, now), n)
  {
    hide Out, OutSum;
    ReceiveOut(k, p, q, i, now);
    AcksStayExact(k, Receive(k, p, q, i, now), p, q, n);
  }

  // ----- Acknowledgements in an unsigned short -----

  const WRAP := 65536

  /** Receiving as it is: the acknowledgements owed to a process are counted in an unsigned short. */
  function ReceiveShort(k: Link, p: nat, q: nat, i: nat, now: bool): (r: Link)
    requires i < |k.chan(q, p)|
  {
    var r := Receive(k, p, q, i, now);
    r.(owed := Put<nat>(r.owed, p, q, r.owed(p, q) % WRAP))
  }

  /** The counters stay exact if and only if the acknowledgement is sent at once or there is room for it in the short. */
  lemma ShortAcksIff(k: Link, p: nat, q: nat, i: nat, now: bool, n: nat)
    requires AcksExact(k, n) && p < n && q < n && p != q && i < |k.chan(q, p)| && k.owed(p, q) < WRAP
    ensures AcksExact(ReceiveShort(k, p, q, i, now), n) <==> k.chan(q, p)[i].data == [] || now || k.owed(p, q) + 1 < WRAP
    ensures AcksExact(ReceiveShort(k, p, q, i, now), n) ==>
        forall a: int, b: int :: ReceiveShort(k, p, q, i, now).owed(a, b) == Receive(k, p, q, i, now).owed(a, b)
  {
    hide AcksExact, DataCount, TagSum, Without;
    var long, short := Receive(k, p, q, i, now), ReceiveShort(k, p, q, i, now);
    ReceiveExact(k, p, q, i, now, n);
    if k.chan(q, p)[i].data == [] || now || k.owed(p, q) + 1 < WRAP {
      SameOwed(long, short, n);
    } else {
      AcksLost(long, short, p, q, n);
    }
  }

  lemma SameOwed(k: Link, r: Link, n: nat)
    requires AcksExact(k, n) && r.chan == k.chan && r.ack == k.ack && forall a: int, b: int :: r.owed(a, b) == k.owed(a, b)
    ensures AcksExact(r, n)
  {
    forall p: nat | p < n ensures OutSum(r, p, n) == OutSum(k, p, n) {
      SameOut(k, r, p, n);
    }
  }

  lemma {:induction false} SameOut(k: Link, r: Link, p: nat, n: nat)
    requires r.chan == k.chan && forall a: int, b: int :: r.owed(a, b) == k.owed(a, b)
    ensures OutSum(r, p, n) == OutSum(k, p, n)
  {
    if n > 0 {
      SameOut(k, r, p, n - 1);
    }
  }

  lemma AcksLost(k: Link, r: Link, p: nat, q: nat, n: nat)
    requires AcksExact(k, n) && r.chan == k.chan && r.ack == k.ack && p < n && q < n && r.owed(p, q) < k.owed(p, q)
    requires forall a: int, b: int :: a != p || b != q ==> r.owed(a, b) == k.owed(a, b)
    ensures !AcksExact(r, n)
  {
    hide DataCount, TagSum;
    OutSumChange(k, r, q, p, n);
    assert r.ack(q) != OutSum(r, q, n);
  }

  lemma EnqueueExact(k: Link, p: nat, q: nat, x: Item, n: nat)
    requires AcksExact(k, n) && p < n && q < n
    ensures AcksExact(Enqueue(k, p, q, x), n)
  {
    AcksStayExact(k, Enqueue(k, p, q, x), p, q, n);
  }

  lemma {:induction false} NoneOut(k: Link, p: nat, n: nat)
    requires OutSum(k, p, n) == 0
    ensures forall q: nat :: q < n ==> Out(k, p, q) == 0
  {
    if n > 0 {
      NoneOut(k, p, n - 1);
    }
  }

  lemma {:induction false} NoData(c: seq<Packet>)
    requires DataCount(c) == 0
    ensures forall i :: 0 <= i < |c| ==> c[i].data == []
  {
    if c != [] {
      NoData(c[..|c| - 1]);
    }
  }

  /** A zero counter means that none of the process's buffers is in flight. */
  lemma ZeroAckMeansDelivered(k: Link, p: nat, q: nat, n: nat)
    requires AcksExact(k, n) && p < n && q < n && k.ack(p) == 0
    ensures forall i :: 0 <= i < |k.chan(p, q)| ==> k.chan(p, q)[i].data == []
  {
    NoneOut(k, p, n);
    assert Out(k, p, q) == 0;
    NoData(k.chan(p, q));
  }
}
