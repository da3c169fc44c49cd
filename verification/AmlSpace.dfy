/**
  Room in the send buffers: in every run whose messages are short enough nothing
  is ever written past the end of a buffer, and the buffers of bytes hold what the
  protocol says they hold.
*/
module AmlSpace {
  import opened Common
  import opened AmlLink
  import opened AmlContent
  import opened Aml
  import AmlBarrier
  import AmlBuffers
  import AmlProof

  // ----- One message -----

  lemma OccupiedMore(xs: seq<Item>, x: Item, header: nat)
    ensures Occupied(xs + [x], header) == Occupied(xs, header) + |x.body.data| + header
  {
    assert (xs + [x])[..|xs|] == xs;
  }

  /**
    A buffer that was within its bounds stays so if and only if the message and its header fit an empty one.
    What is collected leaves only when the message does not fit behind it.
  */
  lemma PostFitsIff(k: Link, p: nat, q: nat, x: Item, header: nat)
    requires Occupied(k.buf(p, q), header) <= AGGR
    ensures var r := Post(k, p, q, x, header); var more := |x.body.data| + header;
      && (Occupied(r.buf(p, q), header) <= AGGR <==> more <= AGGR)
      && (Occupied(k.buf(p, q), header) + more <= AGGR ==> r.chan == k.chan && r.buf(p, q) == k.buf(p, q) + [x])
      && (Occupied(k.buf(p, q), header) + more > AGGR && k.buf(p, q) != [] ==>
          r.chan(p, q) == k.chan(p, q) + [Packet(k.buf(p, q), k.owed(p, q))] && r.buf(p, q) == [x])
  {
    OccupiedMore(k.buf(p, q), x, header);
    OccupiedMore([], x, header);
    assert [] + [x] == [x];
  }

  // ----- Every buffer and every message in flight -----

  /** The items are of at most n bytes and fit one buffer. */
  ghost predicate Fits(xs: seq<Item>, header: nat, n: nat) {
    Short(xs, n) && Occupied(xs, header) <= AGGR
  }

  ghost predicate Short(xs: seq<Item>, n: nat) {
    forall i :: 0 <= i < |xs| ==> |xs[i].body.data| <= n
  }

  ghost predicate Room(k: Link, header: nat, n: nat) {
    && (forall p: nat, q: nat :: Fits(k.buf(p, q), header, n))
    && (forall p: nat, q: nat, i: nat :: i < |k.chan(p, q)| ==> Fits(k.chan(p, q)[i].data, header, n))
  }

  /** No buffer holds more than it can, between groups and inside them. */
  ghost predicate Within(s: State, n: nat) {
    Room(s.inter, HEADER, n) && Room(s.intra, HEADER_INTRA, n) && forall p: nat :: Short(s.inbox(p), n)
  }

  lemma FlushRoom(k: Link, p: nat, q: nat, header: nat, n: nat)
    requires Room(k, header, n)
    ensures Room(Flush(k, p, q), header, n)
  {
    hide Fits;
    var r := Flush(k, p, q);
    NothingFits(header, n);
    forall a: nat, b: nat, i: nat | i < |r.chan(a, b)| ensures Fits(r.chan(a, b)[i].data, header, n) {
      if i < |k.chan(a, b)| {
        assert r.chan(a, b)[i] == k.chan(a, b)[i];
      } else {
        assert r.chan(a, b)[i].data == k.buf(p, q);
      }
    }
  }

  lemma NothingFits(header: nat, n: nat)
    ensures Fits([], header, n) && Occupied([], header) == 0
  {
  }

  lemma ReceiveRoom(k: Link, p: nat, q: nat, i: nat, now: bool, header: nat, n: nat)
    requires Room(k, header, n) && i < |k.chan(q, p)|
    ensures Room(Receive(k, p, q, i, now), header, n) && Fits(k.chan(q, p)[i].data, header, n)
  {
    hide Fits;
    var r := Receive(k, p, q, i, now);
    NothingFits(header, n);
    var left := Without(k.chan(q, p), i);
    assert forall j :: 0 <= j < |left| ==> left[j] == if j < i then k.chan(q, p)[j] else k.chan(q, p)[j + 1];
    assert forall j: nat :: j < |left| ==> Fits(left[j].data, header, n);
    forall a: nat, b: nat, j: nat | j < |r.chan(a, b)| ensures Fits(r.chan(a, b)[j].data, header, n) {
      var before := if a == q && b == p then left else k.chan(a, b);
      if j < |before| {
        assert r.chan(a, b)[j] == before[j];
      } else {
        assert r.chan(a, b)[j].data == [];
      }
    }
  }

  lemma EnqueueRoom(k: Link, p: nat, q: nat, x: Item, header: nat, n: nat)
    requires Room(k, header, n) && Fits(k.buf(p, q) + [x], header, n)
    ensures Room(Enqueue(k, p, q, x), header, n)
  {
    hide Fits;
  }

  lemma PostRoom(k: Link, p: nat, q: nat, x: Item, header: nat, n: nat)
    requires Room(k, header, n) && |x.body.data| <= n && n + header <= AGGR
    ensures Room(Post(k, p, q, x, header), header, n)
  {
    hide Flush, Enqueue, Room, Occupied;
    FlushRoom(k, p, q, header, n);
    var room := AGGR - Occupied(k.buf(p, q), header) - header;
    var k1 := if room < |x.body.data| then Flush(k, p, q) else k;
    assert Fits(k.buf(p, q), header, n) by { RoomBuf(k, header, n, p, q); }
    FlushEmpties(k, p, q);
    OccupiedMore(k1.buf(p, q), x, header);
    assert Occupied([], header) == 0 by { NothingFits(header, n); }
    EnqueueRoom(k1, p, q, x, header, n);
  }

  lemma RoomBuf(k: Link, header: nat, n: nat, p: nat, q: nat)
    requires Room(k, header, n)
    ensures Fits(k.buf(p, q), header, n)
  {
  }

  lemma FlushEmpties(k: Link, p: nat, q: nat)
    ensures Flush(k, p, q).buf(p, q) == []
  {
  }

  // ----- Every run -----

  /** The longest message that a machine of this shape has room for; alone, a process needs none. */
  predicate Holds(c: Shape, n: nat) {
    && (c.size > 1 ==> n + HEADER_INTRA <= AGGR)
    && (c.groups > 1 ==> n + HEADER <= AGGR)
  }

  ghost predicate AllShort(run: seq<Event>, n: nat) {
    forall i :: 0 <= i < |run| && run[i].Send? ==> |run[i].body.data| <= n
  }

  lemma Alone(c: Shape, p: nat, dst: nat)
    requires c.Valid() && p < c.Count() && dst < c.Count() && dst != p
    ensures c.Group(dst) == c.Group(p) ==> c.size > 1
    ensures c.Group(dst) != c.Group(p) ==> c.groups > 1
  {
    AmlProof.ProcOf(c, p);
    AmlProof.ProcOf(c, dst);
  }

  lemma SendWithin(c: Shape, s: State, p: nat, dst: nat, body: Body, n: nat)
    requires c.Valid() && Within(s, n) && Holds(c, n) && Enabled(c, s, Send(p, dst, body)) && |body.data| <= n
    ensures Within(DoSend(c, s, p, dst, body), n)
  {
    hide Room, Post, Char, Shape.Group, Shape.Local, Shape.Proc, Shape.Count;
    if dst != p {
      Alone(c, p, dst);
      if c.Group(dst) == c.Group(p) {
        PostRoom(s.intra, p, c.Proc(c.Group(p), c.Local(dst)), Item(c.Group(p), body, s.epoch(p)), HEADER_INTRA, n);
      } else {
        PostRoom(s.inter, p, c.Proc(c.Group(dst), c.Local(p)), Item(Char(c.Local(dst)), body, s.epoch(p)), HEADER, n);
      }
    }
  }

  lemma ProcessWithin(c: Shape, s: State, p: nat, n: nat)
    requires c.Valid() && Within(s, n) && Holds(c, n) && s.inbox(p) != []
    ensures Within(DoProcess(c, s, p), n)
  {
    hide Room, Post, Unroute, Shape.Group, Shape.Local, Shape.Proc, Shape.Count;
    var x := s.inbox(p)[0];
    var from := c.Proc(c.Group(s.from(p)), c.Local(p));
    var local := Unroute(c, x.routing);
    assert Short(s.inbox(p), n) && Short(s.inbox(p)[1..], n);
    if local != c.Local(p) {
      PostRoom(s.intra, p, c.Proc(c.Group(p), local), Item(c.Group(from), x.body, x.interval), HEADER_INTRA, n);
    }
  }

  lemma StepWithin(c: Shape, s: State, e: Event, n: nat)
    requires c.Valid() && Within(s, n) && Holds(c, n) && Enabled(c, s, e) && (e.Send? ==> |e.body.data| <= n)
    ensures Within(Do(c, s, e), n)
  {
    hide Room, DoSend, DoProcess, Receive, Flush, Calls, MayAdvance, InterPeer, IntraPeer, Shape.Count;
    match e
    case Send(p, dst, body) => SendWithin(c, s, p, dst, body, n);
    case Poll(p, q, i) => ReceiveRoom(s.inter, p, q, i, s.pc(p) != Running, HEADER, n);
    case Process(p) => ProcessWithin(c, s, p, n);
    case PollIntra(p, q, i) => ReceiveRoom(s.intra, p, q, i, s.pc(p) != Running, HEADER_INTRA, n);
    case Enter(p) =>
    case Advance(p) =>
      match s.pc(p)
      case FlushInter(i) => FlushRoom(s.inter, p, InterPeer(c, p, i), HEADER, n);
      case FlushIntra(i) => FlushRoom(s.intra, p, IntraPeer(c, p, i), HEADER_INTRA, n);
      case _ =>
  }

  lemma {:induction false} WithinAlways(c: Shape, run: seq<Event>, n: nat)
    requires c.Valid() && Holds(c, n) && IsRun(c, run) && AllShort(run, n)
    ensures Within(Aml.After(c, run), n)
  {
    hide Within, Do, Enabled, Holds;
    if run == [] {
      assert Within(Init(), n) by { InitWithin(n); }
    } else {
      WithinAlways(c, run[..|run| - 1], n);
      StepWithin(c, Aml.After(c, run[..|run| - 1]), run[|run| - 1], n);
    }
  }

  lemma InitWithin(n: nat)
    ensures Within(Init(), n)
  {
  }

  /** Every buffer and every message in flight keeps within AGGR bytes. */
  ghost predicate NoOverrun(s: State) {
    && (forall p: nat, q: nat :: Occupied(s.inter.buf(p, q), HEADER) <= AGGR)
    && (forall p: nat, q: nat :: Occupied(s.intra.buf(p, q), HEADER_INTRA) <= AGGR)
    && (forall p: nat, q: nat, i: nat :: i < |s.inter.chan(p, q)| ==> Occupied(s.inter.chan(p, q)[i].data, HEADER) <= AGGR)
    && (forall p: nat, q: nat, i: nat :: i < |s.intra.chan(p, q)| ==>
        Occupied(s.intra.chan(p, q)[i].data, HEADER_INTRA) <= AGGR)
  }

  ghost function Bytes(n: nat): (data: seq<nat>)
    ensures |data| == n
  {
    seq(n, i => 0)
  }

  /** One message that is too long for its header runs over the end. */
  lemma LongOverruns(c: Shape, n: nat) returns (run: seq<Event>)
    requires c.Valid() && !Holds(c, n)
    ensures IsRun(c, run) && AllShort(run, n) && !NoOverrun(Aml.After(c, run))
  {
    var dst := if c.size > 1 && n + HEADER_INTRA > AGGR then 1 else c.size;
    var body := Body(0, Bytes(n));
    var e := Send(0, dst, body);
    Peer(c);
    assert IsRun(c, []) && Enabled(c, Aml.After(c, []), e);
    AmlBarrier.Extend(c, [], e);
    run := [] + [e];
    Overrun(c, n, dst);
  }

  lemma Peer(c: Shape)
    requires c.Valid() && (c.size > 1 || c.groups > 1)
    ensures c.Group(0) == 0 && c.Local(0) == 0 && c.Proc(0, 0) == 0 && 0 < c.Count()
    ensures c.size > 1 ==> c.Group(1) == 0 && c.Local(1) == 1 && c.Proc(0, 1) == 1 && 1 < c.Count()
    ensures c.groups > 1 ==> c.Group(c.size) == 1 && c.Local(c.size) == 0 && c.Proc(1, 0) == c.size && c.size < c.Count()
  {
    AmlProof.ProcFacts(c, 0, 0);
    if c.size > 1 {
      AmlProof.ProcFacts(c, 0, 1);
    }
    if c.groups > 1 {
      AmlProof.ProcFacts(c, 1, 0);
    }
  }

  lemma Overrun(c: Shape, n: nat, dst: nat)
    requires c.Valid()
    requires (dst == 1 && c.size > 1 && n + HEADER_INTRA > AGGR) || (dst == c.size && c.groups > 1 && n + HEADER > AGGR)
    ensures !NoOverrun(Do(c, Init(), Send(0, dst, Body(0, Bytes(n)))))
  {
    hide Char, Shape.Group, Shape.Local, Shape.Proc, Shape.Count;
    Peer(c);
    var s := Do(c, Init(), Send(0, dst, Body(0, Bytes(n))));
    if c.Group(dst) == 0 {
      PostFitsIff(Idle, 0, 1, Item(0, Body(0, Bytes(n)), 0), HEADER_INTRA);
      assert Occupied(s.intra.buf(0, 1), HEADER_INTRA) > AGGR;
    } else {
      PostFitsIff(Idle, 0, c.size, Item(Char(0), Body(0, Bytes(n)), 0), HEADER);
      assert Occupied(s.inter.buf(0, c.size), HEADER) > AGGR;
    }
  }

  /** No run with messages of at most n bytes writes past the end of a buffer, if and only if the machine holds them. */
  lemma NoOverrunIff(c: Shape, n: nat)
    requires c.Valid()
    ensures (forall run :: IsRun(c, run) && AllShort(run, n) ==> NoOverrun(Aml.After(c, run))) <==> Holds(c, n)
  {
    hide IsRun, Aml.After, AllShort, Holds;
    if Holds(c, n) {
      forall run | IsRun(c, run) && AllShort(run, n) ensures NoOverrun(Aml.After(c, run)) {
        WithinAlways(c, run, n);
        WithinMeans(Aml.After(c, run), n);
      }
    } else {
      var run := LongOverruns(c, n);
    }
  }

  lemma WithinMeans(s: State, n: nat)
    requires Within(s, n)
    ensures NoOverrun(s)
  {
    hide Occupied, Short;
    assert forall p: nat, q: nat :: Fits(s.inter.buf(p, q), HEADER, n) && Fits(s.intra.buf(p, q), HEADER_INTRA, n);
  }

  // ----- The bytes -----

  /** The bytes of the collected messages, each with its header behind the one before. */
  ghost function Wire(xs: seq<Item>, enc: Item -> seq<Byte>): (bytes: seq<Byte>) {
    if xs == [] then [] else Wire(xs[..|xs| - 1], enc) + enc(xs[|xs| - 1])
  }

  ghost predicate Encodes(enc: Item -> seq<Byte>, header: nat) {
    forall x :: |enc(x)| == |x.body.data| + header
  }

  lemma {:induction false} WireLength(xs: seq<Item>, enc: Item -> seq<Byte>, header: nat)
    requires Encodes(enc, header)
    ensures |Wire(xs, enc)| == Occupied(xs, header)
  {
    if xs != [] {
      WireLength(xs[..|xs| - 1], enc, header);
    }
  }

  lemma WireMore(xs: seq<Item>, x: Item, enc: Item -> seq<Byte>)
    ensures Wire(xs + [x], enc) == Wire(xs, enc) + enc(x)
  {
    assert (xs + [x])[..|xs|] == xs;
  }

  /** Process p's buffer for each of its destinations holds the bytes of what the protocol has buffered for it. */
  ghost predicate Carries(b: AmlBuffers.SendBuffers, k: Link, p: nat, to: seq<nat>, enc: Item -> seq<Byte>)
    reads b
  {
    b.Valid() && |to| == b.nodes && NoDup(to) && forall i :: 0 <= i < |to| ==> b.pending[i] == Wire(k.buf(p, to[i]), enc)
  }

  lemma CarriedSize(b: AmlBuffers.SendBuffers, k: Link, p: nat, to: seq<nat>, enc: Item -> seq<Byte>, header: nat, node: nat)
    requires Carries(b, k, p, to, enc) && Encodes(enc, header) && node < |to|
    ensures b.sendsize[node] == Occupied(k.buf(p, to[node]), header)
  {
    WireLength(k.buf(p, to[node]), enc, header);
  }

  /** Sending bytes follows the protocol: the two flush at the same time, and what leaves is what the protocol sends. */
  method SendBytes(b: AmlBuffers.SendBuffers, ghost k: Link, ghost p: nat, ghost to: seq<nat>, ghost enc: Item -> seq<Byte>,
                   ghost header: nat, ghost x: Item, bytes: seq<Byte>, node: nat, slot: nat)
    requires Carries(b, k, p, to, enc) && Encodes(enc, header) && bytes == enc(x) && |x.body.data| + header <= AGGR
    requires node < b.nodes && slot < AmlBuffers.NSEND
    requires b.sendsize[node] + |bytes| > AGGR ==> b.sending[slot] == -1
    modifies b
    ensures Carries(b, Post(k, p, to[node], x, header), p, to, enc)
    ensures var flushed := Occupied(k.buf(p, to[node]), header) + |bytes| > AGGR;
      && b.sending[slot] == (if flushed then old(b.sendsize)[node] else old(b.sending)[slot])
      && (flushed ==> b.posted[slot] == Wire(k.buf(p, to[node]), enc))
  {
    hide Wire, Occupied, AmlBuffers.SendBuffers.Intact, AmlBuffers.Apart;
    CarriedSize(b, k, p, to, enc, header, node);
    ghost var q := to[node];
    PostBuffers(k, p, q, x, header, enc);
    b.Send(node, bytes, slot);
  }

  /** What the protocol does to the buffers, in bytes. */
  lemma PostBuffers(k: Link, p: nat, q: nat, x: Item, header: nat, enc: Item -> seq<Byte>)
    requires |x.body.data| + header <= AGGR
    ensures var r := Post(k, p, q, x, header);
      && (forall b: nat :: b != q ==> r.buf(p, b) == k.buf(p, b))
      && Wire(r.buf(p, q), enc) ==
          (if Occupied(k.buf(p, q), header) + |x.body.data| + header > AGGR then [] else Wire(k.buf(p, q), enc)) + enc(x)
  {
    hide Occupied;
    WireMore(k.buf(p, q), x, enc);
    WireMore([], x, enc);
  }
}
