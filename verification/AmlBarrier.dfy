/**
  What each stage of aml_barrier has achieved, and the theorem that the barrier
  completes every active message sent before it.
*/
module AmlBarrier {
  import opened AmlLink
  import opened AmlContent
  import opened Aml
  import opened AmlProof

  ghost predicate Quiet(k: Link, p: nat, q: nat) {
    k.buf(p, q) == [] && k.owed(p, q) == 0
  }

  /** What process p has established by the stage it has reached. */
  ghost predicate StageFacts(c: Shape, s: State, p: nat)
    requires c.Valid()
  {
    var stage := Stage(s.pc(p));
    && (s.pc(p).FlushInter? ==> s.pc(p).i >= 1 && InterFlushed(c, s, p, s.pc(p).i))
    && (stage >= 2 ==> forall q: nat :: Quiet(s.inter, p, q))
    && (stage >= 3 ==> s.inter.ack(p) == 0)
    && (stage >= 4 ==> s.inbox(p) == [] && ColumnArrived(c, s, p))
    && (s.pc(p).FlushIntra? ==> s.pc(p).i >= 1 && IntraFlushed(c, s, p, s.pc(p).i))
    && (stage >= 5 ==> forall q: nat :: Quiet(s.intra, p, q))
    && (stage >= 6 ==> s.intra.ack(p) == 0)
  }

  ghost predicate InterFlushed(c: Shape, s: State, p: nat, i: nat)
    requires c.Valid()
  {
    forall j: nat :: 1 <= j < i && j < c.groups ==> Quiet(s.inter, p, InterPeer(c, p, j))
  }

  ghost predicate IntraFlushed(c: Shape, s: State, p: nat, i: nat)
    requires c.Valid()
  {
    forall j: nat :: 1 <= j < i && j < c.size ==> Quiet(s.intra, p, IntraPeer(c, p, j))
  }

  ghost predicate ColumnArrived(c: Shape, s: State, p: nat)
    requires c.Valid()
  {
    forall q: nat :: q < c.Count() && c.Local(q) == c.Local(p) ==> Arrived(s, q, s.epoch(p), 3)
  }

  ghost predicate Staged(c: Shape, s: State)
    requires c.Valid()
  {
    forall p: nat :: p < c.Count() ==> StageFacts(c, s, p)
  }

  /** Nobody is more than one barrier ahead, and only of processes at the last stage. */
  ghost predicate InStep(c: Shape, s: State) {
    forall p: nat, q: nat :: p < c.Count() && q < c.Count() && s.epoch(q) > s.epoch(p) ==>
      s.epoch(q) == s.epoch(p) + 1 && s.pc(p) == AtWorld
  }

  /** What is under way was sent after the last barrier that anyone completed. */
  ghost predicate Fresh(c: Shape, s: State)
    requires c.Valid()
  {
    forall m, p: nat :: p < c.Count() && Transit(c, s, m) > 0 ==> s.epoch(p) <= m.interval
  }

  /** What no shape of the machine breaks. */
  ghost predicate Core(c: Shape, s: State)
    requires c.Valid()
  {
    Wired(c, s) && Acks(c, s) && Staged(c, s) && InStep(c, s)
  }

  ghost predicate Inv(c: Shape, s: State)
    requires c.Valid()
  {
    Core(c, s) && Conserved(c, s) && Fresh(c, s)
  }

  // ----- Processes that do not move -----

  /** Nothing of p's own has changed. */
  ghost predicate OwnSame(s: State, r: State, p: nat) {
    && (forall q: nat :: Quiet(s.inter, p, q) ==> Quiet(r.inter, p, q))
    && (forall q: nat :: Quiet(s.intra, p, q) ==> Quiet(r.intra, p, q))
    && r.inter.ack(p) == s.inter.ack(p) && r.intra.ack(p) == s.intra.ack(p)
    && r.pc(p) == s.pc(p) && r.epoch(p) == s.epoch(p) && (s.inbox(p) == [] ==> r.inbox(p) == [])
  }

  /** Nobody goes back in the barrier. */
  ghost predicate Onward(s: State, r: State) {
    forall q: nat, e: nat, stage: nat :: Arrived(s, q, e, stage) ==> Arrived(r, q, e, stage)
  }

  lemma OwnSameKeepsStage(c: Shape, s: State, r: State, p: nat)
    requires c.Valid() && StageFacts(c, s, p) && OwnSame(s, r, p) && Onward(s, r)
    ensures StageFacts(c, r, p)
  {
    hide Quiet, Arrived, InterPeer, IntraPeer, Shape.Count, Shape.Local;
  }

  lemma PostOthers(k: Link, p: nat, q: nat, x: Item, header: nat, a: nat)
    requires a != p
    ensures var r := Post(k, p, q, x, header); (forall b: nat :: Quiet(k, a, b) ==> Quiet(r, a, b)) && r.ack(a) == k.ack(a)
  {
    hide Occupied;
  }

  lemma OthersSame(c: Shape, s: State, e: Event, a: nat)
    requires c.Valid() && Enabled(c, s, e) && a != e.p
    ensures OwnSame(s, Do(c, s, e), a)
  {
    hide Post, Occupied, Char, Unroute, Calls, MayAdvance, InterPeer, IntraPeer, Shape.Group, Shape.Local, Shape.Proc,
        Shape.Count;
    match e
    case Send(p, dst, body) =>
      PostOthers(s.intra, p, c.Proc(c.Group(p), c.Local(dst)), Item(c.Group(p), body, s.epoch(p)), HEADER_INTRA, a);
      PostOthers(s.inter, p, c.Proc(c.Group(dst), c.Local(p)), Item(Char(c.Local(dst)), body, s.epoch(p)), HEADER, a);
    case Poll(p, q, i) =>
    case Process(p) =>
      var x := s.inbox(p)[0];
      var from := c.Proc(c.Group(s.from(p)), c.Local(p));
      PostOthers(s.intra, p, c.Proc(c.Group(p), Unroute(c, x.routing)), Item(c.Group(from), x.body, x.interval), HEADER_INTRA, a);
    case PollIntra(p, q, i) =>
    case Enter(p) =>
    case Advance(p) =>
  }

  lemma StepsOnward(c: Shape, s: State, e: Event)
    requires c.Valid() && Enabled(c, s, e)
    ensures Onward(s, Do(c, s, e))
  {
    hide Post, Receive, Flush, Char, Unroute, Calls, MayAdvance, InterPeer, IntraPeer, Shape.Group, Shape.Local,
        Shape.Proc, Shape.Count;
  }

  // ----- The process that moves -----

  lemma {:induction false} TagBound(ps: seq<Packet>, i: nat)
    requires i < |ps|
    ensures ps[i].tag <= TagSum(ps)
  {
    if i < |ps| - 1 {
      TagBound(ps[..|ps| - 1], i);
    }
  }

  /** A process whose counter is zero can only receive messages that acknowledge nothing. */
  lemma NoTagLeft(k: Link, p: nat, q: nat, i: nat, n: nat)
    requires AcksExact(k, n) && p < n && q < n && k.ack(p) == 0 && i < |k.chan(q, p)|
    ensures k.chan(q, p)[i].tag == 0
  {
    NoneOut(k, p, n);
    assert Out(k, p, q) == 0;
    TagBound(k.chan(q, p), i);
  }

  lemma ReceiveOwn(k: Link, p: nat, q: nat, i: nat)
    requires p != q && i < |k.chan(q, p)|
    ensures var r := Receive(k, p, q, i, true);
      (forall b: nat :: Quiet(k, p, b) ==> Quiet(r, p, b)) && r.ack(p) == k.ack(p) - k.chan(q, p)[i].tag
  {
  }

  lemma PollKeepsOwnStage(c: Shape, s: State, p: nat, q: nat, i: nat)
    requires c.Valid() && Acks(c, s) && StageFacts(c, s, p) && p != q && Enabled(c, s, Poll(p, q, i))
    requires Onward(s, DoPoll(s, p, q, i))
    ensures StageFacts(c, DoPoll(s, p, q, i), p)
  {
    hide Quiet, Receive, Arrived, InterPeer, IntraPeer, Shape.Local, Shape.Count;
    if s.pc(p) != Running {
      ReceiveOwn(s.inter, p, q, i);
      if s.inter.ack(p) == 0 {
        NoTagLeft(s.inter, p, q, i, c.Count());
      }
    }
  }

  lemma PollIntraKeepsOwnStage(c: Shape, s: State, p: nat, q: nat, i: nat)
    requires c.Valid() && Acks(c, s) && StageFacts(c, s, p) && p != q && Enabled(c, s, PollIntra(p, q, i))
    requires Onward(s, DoPollIntra(c, s, p, q, i))
    ensures StageFacts(c, DoPollIntra(c, s, p, q, i), p)
  {
    hide Quiet, Receive, Calls, Arrived, InterPeer, IntraPeer, Shape.Local, Shape.Count;
    if s.pc(p) != Running {
      ReceiveOwn(s.intra, p, q, i);
      if s.intra.ack(p) == 0 {
        NoTagLeft(s.intra, p, q, i, c.Count());
      }
    }
  }

  lemma FlushOwn(k: Link, p: nat, q: nat)
    ensures var r := Flush(k, p, q);
      && Quiet(r, p, q)
      && (forall b: nat :: Quiet(k, p, b) ==> Quiet(r, p, b))
  {
  }

  lemma EveryPeerFlushed(c: Shape, s: State, p: nat, i: nat)
    requires c.Valid() && Wired(c, s) && p < c.Count()
    ensures InterFlushed(c, s, p, i) && i >= c.groups ==> forall q: nat :: Quiet(s.inter, p, q)
    ensures IntraFlushed(c, s, p, i) && i >= c.size ==> forall q: nat :: Quiet(s.intra, p, q)
  {
    hide InterPeer, IntraPeer, Shape.Count, Shape.Group, Shape.Local, Shape.Proc;
    if InterFlushed(c, s, p, i) && i >= c.groups {
      forall q: nat ensures Quiet(s.inter, p, q) {
        if Used(s.inter, p, q) {
          var j := InterPeerOf(c, p, q);
        }
      }
    }
    if IntraFlushed(c, s, p, i) && i >= c.size {
      forall q: nat ensures Quiet(s.intra, p, q) {
        if Used(s.intra, p, q) {
          var j := IntraPeerOf(c, p, q);
        }
      }
    }
  }

  lemma InterPeerOf(c: Shape, p: nat, q: nat) returns (j: nat)
    requires c.Valid() && InterPair(c, p, q)
    ensures 1 <= j < c.groups && InterPeer(c, p, j) == q
  {
    ProcOf(c, p);
    ProcOf(c, q);
    var g, h := c.Group(p), c.Group(q);
    j := if h > g then h - g else h + c.groups - g;
    Rotate(g, j, c.groups);
  }

  lemma IntraPeerOf(c: Shape, p: nat, q: nat) returns (j: nat)
    requires c.Valid() && IntraPair(c, p, q)
    ensures 1 <= j < c.size && IntraPeer(c, p, j) == q
  {
    ProcOf(c, p);
    ProcOf(c, q);
    var k, l := c.Local(p), c.Local(q);
    j := if l > k then l - k else l + c.size - k;
    Rotate(k, j, c.size);
  }

  lemma AdvanceKeepsOwnStage(c: Shape, s: State, p: nat)
    requires c.Valid() && Wired(c, s) && StageFacts(c, s, p) && Enabled(c, s, Advance(p))
    requires Onward(s, DoAdvance(c, s, p))
    ensures StageFacts(c, DoAdvance(c, s, p), p)
  {
    hide Wired, Quiet, Flush, Arrived, InterPeer, IntraPeer, Shape.Local, Shape.Group, Shape.Count;
    match s.pc(p)
    case FlushInter(i) =>
      FlushOwn(s.inter, p, InterPeer(c, p, i));
      EveryPeerFlushed(c, s, p, i);
    case FlushIntra(i) =>
      FlushOwn(s.intra, p, IntraPeer(c, p, i));
      EveryPeerFlushed(c, s, p, i);
    case _ =>
  }

  lemma SendKeepsOwnStage(c: Shape, s: State, p: nat, dst: nat, body: Body)
    requires c.Valid() && s.pc(p) == Running
    ensures StageFacts(c, DoSend(c, s, p, dst, body), p)
  {
    hide Post, Char, Shape.Local, Shape.Group, Shape.Proc, Shape.Count;
  }

  lemma ProcessKeepsOwnStage(c: Shape, s: State, p: nat)
    requires c.Valid() && StageFacts(c, s, p) && s.inbox(p) != []
    ensures StageFacts(c, DoProcess(c, s, p), p)
  {
    hide Post, Unroute, Quiet, Shape.Local, Shape.Group, Shape.Proc, Shape.Count;
  }

  lemma OwnStageKept(c: Shape, s: State, e: Event)
    requires c.Valid() && Core(c, s) && Enabled(c, s, e)
    ensures StageFacts(c, Do(c, s, e), e.p)
  {
    StepsOnward(c, s, e);
    hide Wired, Acks, Conserved, Fresh, InStep, Onward, StageFacts, MayAdvance, DoSend, DoPoll, DoProcess, DoPollIntra,
        DoAdvance, Shape.Count;
    match e
    case Send(p, dst, body) => SendKeepsOwnStage(c, s, p, dst, body);
    case Poll(p, q, i) =>
      PollKeepsWired(c, s, p, q, i);
      PollKeepsOwnStage(c, s, p, q, i);
    case Process(p) => ProcessKeepsOwnStage(c, s, p);
    case PollIntra(p, q, i) =>
      PollIntraKeepsWired(c, s, p, q, i);
      PollIntraKeepsOwnStage(c, s, p, q, i);
    case Enter(p) => EnterStage(c, s, p);
    case Advance(p) => AdvanceKeepsOwnStage(c, s, p);
  }

  lemma EnterStage(c: Shape, s: State, p: nat)
    requires c.Valid()
    ensures StageFacts(c, Do(c, s, Enter(p)), p)
  {
  }

  lemma StagedKept(c: Shape, s: State, e: Event)
    requires c.Valid() && Core(c, s) && Enabled(c, s, e)
    ensures Staged(c, Do(c, s, e))
  {
    hide Wired, Acks, Conserved, Fresh, InStep, Onward, StageFacts, OwnSame, Do, Enabled;
    StepsOnward(c, s, e);
    OwnStageKept(c, s, e);
    forall a: nat | a < c.Count() && a != e.p ensures StageFacts(c, Do(c, s, e), a) {
      OthersSame(c, s, e, a);
      OwnSameKeepsStage(c, s, Do(c, s, e), a);
    }
  }

  // ----- The other invariants -----

  lemma WiredKept(c: Shape, s: State, e: Event)
    requires c.Valid() && Wired(c, s) && Enabled(c, s, e)
    ensures Wired(c, Do(c, s, e))
  {
    hide Wired, MayAdvance, DoSend, DoPoll, DoProcess, DoPollIntra, DoAdvance, Shape.Count;
    match e
    case Send(p, dst, body) => SendKeepsWired(c, s, p, dst, body);
    case Poll(p, q, i) => PollKeepsWired(c, s, p, q, i);
    case Process(p) => ProcessKeepsWired(c, s, p);
    case PollIntra(p, q, i) => PollIntraKeepsWired(c, s, p, q, i);
    case Enter(p) => EnterKeeps(c, s, p);
    case Advance(p) => AdvanceKeepsWired(c, s, p);
  }

  lemma AcksKept(c: Shape, s: State, e: Event)
    requires c.Valid() && Wired(c, s) && Acks(c, s) && Staged(c, s) && Enabled(c, s, e)
    ensures Acks(c, Do(c, s, e))
  {
    hide Wired, Acks, MayAdvance, DoSend, DoPoll, DoProcess, DoPollIntra, DoAdvance, Shape.Count;
    match e
    case Send(p, dst, body) => SendKeepsAcks(c, s, p, dst, body);
    case Poll(p, q, i) => PollKeepsWired(c, s, p, q, i); PollKeepsAcks(c, s, p, q, i);
    case Process(p) => ProcessKeepsAcks(c, s, p);
    case PollIntra(p, q, i) => PollIntraKeepsWired(c, s, p, q, i); PollIntraKeepsAcks(c, s, p, q, i);
    case Enter(p) => EnterKeeps(c, s, p);
    case Advance(p) =>
      assert StageFacts(c, s, p);
      AdvanceKeepsAcks(c, s, p);
  }

  lemma ConservedKept(c: Shape, s: State, e: Event)
    requires c.Valid() && RoutingExact(c) && Wired(c, s) && Conserved(c, s) && Staged(c, s) && Enabled(c, s, e)
    ensures Conserved(c, Do(c, s, e))
  {
    hide RoutingExact, Wired, Conserved, MayAdvance, DoSend, DoPoll, DoProcess, DoPollIntra, DoAdvance, Shape.Count;
    match e
    case Send(p, dst, body) => SendConserves(c, s, p, dst, body);
    case Poll(p, q, i) => PollKeepsWired(c, s, p, q, i); PollConserves(c, s, p, q, i);
    case Process(p) => ProcessConserves(c, s, p);
    case PollIntra(p, q, i) => PollIntraKeepsWired(c, s, p, q, i); PollIntraConserves(c, s, p, q, i);
    case Enter(p) => EnterKeeps(c, s, p);
    case Advance(p) =>
      assert StageFacts(c, s, p);
      AdvanceConserves(c, s, p);
  }

  lemma EnterKeeps(c: Shape, s: State, p: nat)
    requires c.Valid()
    ensures var r := Do(c, s, Enter(p));
      (Wired(c, s) ==> Wired(c, r)) && (Acks(c, s) ==> Acks(c, r)) && (Conserved(c, s) ==> Conserved(c, r))
  {
    hide Content, Used, InterPair, IntraPair;
    var r := Do(c, s, Enter(p));
    if Conserved(c, s) {
      forall m ensures r.sent[m] == r.handled[m] + Transit(c, r, m) {
        InboxesChange(c, s, r, c.Count(), c.Count(), m);
      }
    }
  }

  lemma MovesAfter(c: Shape, s: State, e: Event, p: nat)
    requires c.Valid() && Enabled(c, s, e)
    ensures var r := Do(c, s, e); var leaves := e.Advance? && e.p == p && s.pc(p) == AtWorld;
      && r.epoch(p) == s.epoch(p) + (if leaves then 1 else 0)
      && (s.pc(p) == AtWorld && !leaves ==> r.pc(p) == AtWorld)
  {
    hide Post, Receive, Flush, Char, Unroute, Calls, InterPeer, IntraPeer, Shape.Group, Shape.Local, Shape.Proc, Shape.Count;
  }

  lemma InStepKept(c: Shape, s: State, e: Event)
    requires c.Valid() && InStep(c, s) && Enabled(c, s, e)
    ensures InStep(c, Do(c, s, e))
  {
    hide Do, Shape.Count;
    var r := Do(c, s, e);
    forall p: nat, q: nat | p < c.Count() && q < c.Count() && r.epoch(q) > r.epoch(p)
      ensures r.epoch(q) == r.epoch(p) + 1 && r.pc(p) == AtWorld
    {
      MovesAfter(c, s, e, p);
      MovesAfter(c, s, e, q);
      if e.Advance? && s.pc(e.p) == AtWorld {
        assert Arrived(s, p, s.epoch(e.p), 7) && Arrived(s, q, s.epoch(e.p), 7);
      }
    }
  }

  // ----- Quiescence -----

  lemma {:induction false} EmptyInboxes(c: Shape, s: State, n: nat, m: Message)
    requires c.Valid() && forall p: nat :: p < n ==> s.inbox(p) == []
    ensures Inboxes(c, s, n, m) == 0
  {
    if n > 0 {
      EmptyInboxes(c, s, n - 1, m);
    }
  }

  lemma QuietCell(c: Shape, kind: Kind, k: Link, p: nat, q: nat, n: nat, m: Message)
    requires c.Valid() && AcksExact(k, n) && p < n && q < n && Quiet(k, p, q) && k.ack(p) == 0
    ensures Cell(c, kind, k, p, q, m) == 0
  {
    hide AcksExact, Packets;
    ZeroAckMeansDelivered(k, p, q, n);
    NoPackets(c, kind, p, q, k.chan(p, q), m);
  }

  lemma QuietLink(c: Shape, kind: Kind, k: Link, n: nat, m: Message)
    requires c.Valid() && AcksExact(k, n)
    requires forall p: nat :: p < n ==> k.ack(p) == 0
    requires forall p: nat, q: nat :: p < n ==> Quiet(k, p, q)
    ensures Content(c, kind, k, n, m) == 0
  {
    hide AcksExact, Cell, Quiet;
    forall p: nat, q: nat | p < n && q < n ensures Cell(c, kind, k, p, q, m) == 0 {
      QuietCell(c, kind, k, p, q, n, m);
    }
    EmptyRows(c, kind, k, n, n, m);
  }

  /** When every process waits at the last stage, nothing is under way anywhere. */
  lemma NothingInTransit(c: Shape, s: State, m: Message)
    requires c.Valid() && Acks(c, s) && Staged(c, s)
    requires forall p: nat :: p < c.Count() ==> s.pc(p) == AtWorld
    ensures Transit(c, s, m) == 0
  {
    hide AcksExact, Quiet, Content, InterFlushed, IntraFlushed, ColumnArrived, Shape.Count;
    var n := c.Count();
    forall p: nat | p < n ensures s.inbox(p) == [] && s.inter.ack(p) == 0 && s.intra.ack(p) == 0 {
      assert StageFacts(c, s, p);
    }
    forall p: nat, q: nat | p < n ensures Quiet(s.inter, p, q) && Quiet(s.intra, p, q) {
      assert StageFacts(c, s, p);
    }
    QuietLink(c, Inter, s.inter, n, m);
    QuietLink(c, Intra, s.intra, n, m);
    EmptyInboxes(c, s, n, m);
  }

  // ----- Freshness -----

  /** Only a send adds to what is under way. */
  lemma TransitShrinks(c: Shape, s: State, e: Event, m: Message)
    requires c.Valid() && Conserved(c, s) && Conserved(c, Do(c, s, e)) && Enabled(c, s, e)
    ensures Transit(c, Do(c, s, e), m)
         <= Transit(c, s, m) + if e.Send? && m == Message(e.p, e.dst, e.body, s.epoch(e.p)) then 1 else 0
  {
    hide Transit, Post, Receive, Flush, Char, Unroute, Calls, MayAdvance, InterPeer, IntraPeer, Shape.Group,
        Shape.Local, Shape.Proc, Shape.Count;
    var r := Do(c, s, e);
    assert s.sent[m] == s.handled[m] + Transit(c, s, m);
    assert r.sent[m] == r.handled[m] + Transit(c, r, m);
  }

  lemma FreshKept(c: Shape, s: State, e: Event)
    requires c.Valid() && Inv(c, s) && Conserved(c, Do(c, s, e)) && Enabled(c, s, e)
    ensures Fresh(c, Do(c, s, e))
  {
    hide Transit, Wired, Acks, Conserved, Staged, Do, Shape.Count;
    var r := Do(c, s, e);
    forall m, p: nat | p < c.Count() && Transit(c, r, m) > 0 ensures r.epoch(p) <= m.interval {
      MovesAfter(c, s, e, p);
      TransitShrinks(c, s, e, m);
      if e.Advance? && e.p == p && s.pc(p) == AtWorld {
        LeavingIsFresh(c, s, p, m);
      }
    }
  }

  /** Whoever leaves the barrier leaves only messages of the next interval under way. */
  lemma LeavingIsFresh(c: Shape, s: State, p: nat, m: Message)
    requires c.Valid() && Inv(c, s) && p < c.Count() && s.pc(p) == AtWorld && MayAdvance(c, s, p)
    requires Transit(c, s, m) > 0
    ensures s.epoch(p) + 1 <= m.interval
  {
    hide Transit, Wired, Acks, Conserved, Staged, Shape.Count;
    if q: nat :| q < c.Count() && s.epoch(q) > s.epoch(p) {
      assert s.epoch(q) <= m.interval;
    } else {
      forall q: nat | q < c.Count() ensures s.pc(q) == AtWorld {
        assert Arrived(s, q, s.epoch(p), 7);
      }
      NothingInTransit(c, s, m);
    }
  }

  // ----- Every run -----

  lemma InvInit(c: Shape)
    requires c.Valid()
    ensures Inv(c, Init())
  {
    var s, n := Init(), c.Count();
    forall m ensures Transit(c, s, m) == 0 {
      EmptyInboxes(c, s, n, m);
      EmptyRows(c, Inter, s.inter, n, n, m);
      EmptyRows(c, Intra, s.intra, n, n, m);
    }
    forall p: nat | p < n ensures OutSum(Idle, p, n) == 0 {
      IdleOut(p, n);
    }
  }

  lemma {:induction false} IdleOut(p: nat, n: nat)
    ensures OutSum(Idle, p, n) == 0
  {
    if n > 0 {
      IdleOut(p, n - 1);
    }
  }

  lemma CoreKept(c: Shape, s: State, e: Event)
    requires c.Valid() && Core(c, s) && Enabled(c, s, e)
    ensures Core(c, Do(c, s, e))
  {
    hide Wired, Acks, Staged, InStep, Do, Enabled;
    WiredKept(c, s, e);
    AcksKept(c, s, e);
    StagedKept(c, s, e);
    InStepKept(c, s, e);
  }

  lemma InvKept(c: Shape, s: State, e: Event)
    requires c.Valid() && RoutingExact(c) && Inv(c, s) && Enabled(c, s, e)
    ensures Inv(c, Do(c, s, e))
  {
    hide RoutingExact, Wired, Acks, Conserved, Staged, InStep, Fresh, Do, Enabled;
    CoreKept(c, s, e);
    ConservedKept(c, s, e);
    FreshKept(c, s, e);
  }

  lemma {:induction false} CoreAlways(c: Shape, run: seq<Event>)
    requires c.Valid() && IsRun(c, run)
    ensures Core(c, Aml.After(c, run))
  {
    hide Core, Do, Enabled;
    if run == [] {
      InvInit(c);
    } else {
      CoreAlways(c, run[..|run| - 1]);
      CoreKept(c, Aml.After(c, run[..|run| - 1]), run[|run| - 1]);
    }
  }

  lemma {:induction false} InvAlways(c: Shape, run: seq<Event>)
    requires c.Valid() && RoutingExact(c) && IsRun(c, run)
    ensures Inv(c, Aml.After(c, run))
  {
    hide RoutingExact, Inv, Do, Enabled;
    if run == [] {
      InvInit(c);
    } else {
      InvAlways(c, run[..|run| - 1]);
      InvKept(c, Aml.After(c, run[..|run| - 1]), run[|run| - 1]);
    }
  }

  /** The counters are exact in every run. */
  lemma AcksAlwaysExact(c: Shape, run: seq<Event>, p: nat)
    requires c.Valid() && IsRun(c, run) && p < c.Count()
    ensures var s := Aml.After(c, run);
      s.inter.ack(p) == OutSum(s.inter, p, c.Count()) && s.intra.ack(p) == OutSum(s.intra, p, c.Count())
  {
    hide IsRun, Aml.After, Wired, Staged, InStep;
    CoreAlways(c, run);
  }

  /** No run handles a message more often than it was sent, or with a wrong sender or place. */
  lemma HandledWasSent(c: Shape, run: seq<Event>)
    requires c.Valid() && PowerOfTwo(c.size) && RoutingFits(c) && IsRun(c, run)
    ensures Aml.After(c, run).handled <= Aml.After(c, run).sent
  {
    FittingRoutesExactly(c);
    hide RoutingExact, RoutingFits, PowerOfTwo, IsRun, Aml.After, Acks, Wired, Staged, InStep, Fresh, Transit;
    InvAlways(c, run);
  }

  /**
    The barrier's promise: once any process has left its n-th barrier, every
    message that any process sent before entering its own n-th barrier has been
    handled, exactly as often as it was sent, where and from whom it was sent.
  */
  lemma BarrierCompletesSends(c: Shape, run: seq<Event>, p: nat, m: Message)
    requires c.Valid() && PowerOfTwo(c.size) && RoutingFits(c) && IsRun(c, run)
    requires p < c.Count() && m.interval < Aml.After(c, run).epoch(p)
    ensures Aml.After(c, run).handled[m] == Aml.After(c, run).sent[m]
  {
    FittingRoutesExactly(c);
    hide RoutingExact, RoutingFits, PowerOfTwo, IsRun, Aml.After, Acks, Wired, Staged, InStep, Transit;
    InvAlways(c, run);
    var s := Aml.After(c, run);
    assert s.sent[m] == s.handled[m] + Transit(c, s, m);
  }

  /** After the first half of the barrier no message from another group is on its way to p. */
  lemma InterGroupReceived(c: Shape, run: seq<Event>, p: nat, q: nat)
    requires c.Valid() && IsRun(c, run) && p < c.Count() && q < c.Count()
    requires var s := Aml.After(c, run); 4 <= Stage(s.pc(p)) <= 6
    ensures var s := Aml.After(c, run);
      s.inbox(p) == [] && forall i :: 0 <= i < |s.inter.chan(q, p)| ==> s.inter.chan(q, p)[i].data == []
  {
    hide IsRun, Aml.After, AcksExact, Quiet, Used;
    CoreAlways(c, run);
    var s := Aml.After(c, run);
    assert StageFacts(c, s, p) && StageFacts(c, s, q);
    if s.inter.chan(q, p) != [] {
      assert InterPair(c, q, p) by { UsedByChannel(s.inter, q, p); }
      assert Arrived(s, q, s.epoch(p), 3);
      ZeroAckMeansDelivered(s.inter, q, p, c.Count());
    }
  }

  lemma UsedByChannel(k: Link, p: nat, q: nat)
    requires k.chan(p, q) != []
    ensures Used(k, p, q)
  {
  }

  // ----- Where the promise ends -----

  /** Process 0 sends to local index 256 of the next group; the routing byte says 0. */
  ghost function MisroutedRun(c: Shape, body: Body): (run: seq<Event>)
    requires c.Valid()
  {
    [Send(0, c.size + 256, body), Enter(0), Advance(0), Poll(c.size, 0, 0), Process(c.size)]
  }

  lemma MisroutedNumbers(c: Shape)
    requires c.Valid() && c.groups > 1 && c.size > 256
    ensures c.Group(0) == 0 && c.Local(0) == 0 && c.Group(c.size) == 1 && c.Local(c.size) == 0
    ensures c.Group(c.size + 256) == 1 && c.Local(c.size + 256) == 256 && c.Proc(1, 0) == c.size && c.Proc(0, 0) == 0
    ensures c.size + 256 < c.Count() && InterPeer(c, 0, 1) == c.size && Unroute(c, Char(256)) == 0
  {
    ProcFacts(c, 0, 0);
    ProcFacts(c, 1, 0);
    ProcFacts(c, 1, 256);
    Rotate(0, 1, c.groups);
    assert Char(256) == 0;
    DivMod(0, 0, c.size);
  }

  lemma Extend(c: Shape, run: seq<Event>, e: Event)
    requires c.Valid() && IsRun(c, run) && Enabled(c, Aml.After(c, run), e)
    ensures IsRun(c, run + [e]) && Aml.After(c, run + [e]) == Do(c, Aml.After(c, run), e)
  {
    hide Do, Enabled;
    assert (run + [e])[..|run|] == run;
  }

  lemma MisroutedSend(c: Shape, body: Body)
    requires c.Valid() && c.groups > 1 && c.size > 256
    ensures var s := Do(c, Init(), Send(0, c.size + 256, body));
      && Enabled(c, Init(), Send(0, c.size + 256, body))
      && s.inter.buf(0, c.size) == [Item(0, body, 0)] && s.inter.owed(0, c.size) == 0 && s.inter.chan(0, c.size) == []
      && s.pc == Init().pc && s.inbox == Init().inbox
      && s.sent == multiset{Message(0, c.size + 256, body, 0)} && s.handled == multiset{}
  {
    MisroutedNumbers(c);
    hide Shape.Group, Shape.Local, Shape.Proc, Shape.Count, InterPeer, Unroute;
    assert Char(256) == 0;
  }

  lemma MisroutedFlush(c: Shape, s: State, body: Body)
    requires c.Valid() && c.groups > 1 && c.size > 256
    requires s.inter.buf(0, c.size) == [Item(0, body, 0)] && s.inter.owed(0, c.size) == 0 && s.inter.chan(0, c.size) == []
    requires s.pc == Init().pc && s.inbox == Init().inbox
    ensures var s2 := Do(c, s, Enter(0)); var s3 := Do(c, s2, Advance(0));
      && Enabled(c, s, Enter(0)) && Enabled(c, s2, Advance(0))
      && s3.inter.chan(0, c.size) == [Packet([Item(0, body, 0)], 0)]
      && s3.inbox == s.inbox && s3.pc(c.size) == Running && s3.sent == s.sent && s3.handled == s.handled
  {
    MisroutedNumbers(c);
    hide Shape.Group, Shape.Local, Shape.Proc, Shape.Count, InterPeer, Unroute;
  }

  lemma MisroutedReceive(c: Shape, s: State, body: Body)
    requires c.Valid() && c.groups > 1 && c.size > 256
    requires s.inter.chan(0, c.size) == [Packet([Item(0, body, 0)], 0)] && s.inbox == Init().inbox && s.pc(c.size) == Running
    ensures var s4 := Do(c, s, Poll(c.size, 0, 0)); var s5 := Do(c, s4, Process(c.size));
      && Enabled(c, s, Poll(c.size, 0, 0)) && Enabled(c, s4, Process(c.size))
      && s5.sent == s.sent && s5.handled == s.handled + multiset{Message(0, c.size, body, 0)}
  {
    MisroutedNumbers(c);
    hide Shape.Group, Shape.Local, Shape.Proc, Shape.Count, InterPeer, Unroute, Receive;
    assert Char(256) == 0;
  }

  lemma EmptyRun(c: Shape)
    requires c.Valid()
    ensures IsRun(c, []) && Aml.After(c, []) == Init()
  {
    hide Do, Enabled, Init;
  }

  /** With several groups of more than 256 processes, a run calls a handler nobody asked for. */
  lemma WideGroupsMisroute(c: Shape, body: Body)
    requires c.Valid() && c.groups > 1 && c.size > 256
    ensures IsRun(c, MisroutedRun(c, body))
    ensures Aml.After(c, MisroutedRun(c, body)).sent == multiset{Message(0, c.size + 256, body, 0)}
    ensures Aml.After(c, MisroutedRun(c, body)).handled == multiset{Message(0, c.size, body, 0)}
  {
    hide IsRun, Aml.After, Do, Enabled, Init;
    EmptyRun(c);
    var e1, e2, e3, e4, e5 := Send(0, c.size + 256, body), Enter(0), Advance(0), Poll(c.size, 0, 0), Process(c.size);
    MisroutedSend(c, body);
    Extend(c, [], e1);
    MisroutedFlush(c, Aml.After(c, [] + [e1]), body);
    Extend(c, [] + [e1], e2);
    Extend(c, [] + [e1] + [e2], e3);
    MisroutedReceive(c, Aml.After(c, [] + [e1] + [e2] + [e3]), body);
    Extend(c, [] + [e1] + [e2] + [e3], e4);
    Extend(c, [] + [e1] + [e2] + [e3] + [e4], e5);
    assert MisroutedRun(c, body) == [] + [e1] + [e2] + [e3] + [e4] + [e5];
  }

  /** Handlers are called only as asked, in every run, exactly when the routing field is wide enough. */
  lemma HandlersExactIffRoutingFits(c: Shape)
    requires c.Valid() && PowerOfTwo(c.size)
    ensures (forall run :: IsRun(c, run) ==> Aml.After(c, run).handled <= Aml.After(c, run).sent) <==> RoutingFits(c)
  {
    if RoutingFits(c) {
      forall run | IsRun(c, run) ensures Aml.After(c, run).handled <= Aml.After(c, run).sent {
        HandledWasSent(c, run);
      }
    } else {
      var body := Body(0, []);
      WideGroupsMisroute(c, body);
      var s := Aml.After(c, MisroutedRun(c, body));
      assert Message(0, c.size, body, 0) in s.handled && Message(0, c.size, body, 0) !in s.sent;
    }
  }
}
