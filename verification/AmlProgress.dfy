/**
  The barrier comes to an end: while every process is inside it some step is possible,
  and only so many steps are, whatever their order.
*/
module AmlProgress {
  import opened AmlLink
  import opened AmlContent
  import opened Aml
  import opened AmlProof
  import opened AmlBarrier

  /** The steps of processes that are inside a barrier. */
  predicate Inside(e: Event) {
    !e.Send? && !e.Enter?
  }

  ghost predicate AllInside(c: Shape, s: State) {
    forall p: nat :: p < c.Count() ==> s.pc(p) != Running
  }

  // ----- Waiting for the group -----

  /** Whoever waits for the world has seen its whole group arrive. */
  ghost predicate Gathered(c: Shape, s: State)
    requires c.Valid()
  {
    forall p: nat, q: nat :: p < c.Count() && q < c.Count() && s.pc(p) == AtWorld && c.Group(q) == c.Group(p) ==>
        Arrived(s, q, s.epoch(p), 6)
  }

  lemma GatheredKept(c: Shape, s: State, e: Event)
    requires c.Valid() && Gathered(c, s) && Enabled(c, s, e)
    ensures Gathered(c, Do(c, s, e))
  {
    StepsOnward(c, s, e);
    hide Arrived, Do, DoAdvance, Shape.Count, Shape.Group;
    var r := Do(c, s, e);
    forall p: nat, q: nat | p < c.Count() && q < c.Count() && r.pc(p) == AtWorld && c.Group(q) == c.Group(p)
      ensures Arrived(r, q, r.epoch(p), 6)
    {
      IntoWorld(c, s, e, p);
      assert Arrived(s, q, s.epoch(p), 6);
    }
  }

  lemma IntoWorld(c: Shape, s: State, e: Event, p: nat)
    requires c.Valid() && Enabled(c, s, e) && Do(c, s, e).pc(p) == AtWorld
    ensures Do(c, s, e).epoch(p) == s.epoch(p)
    ensures s.pc(p) == AtWorld || (s.pc(p) == AtIntra && MayAdvance(c, s, p))
  {
    hide Post, Receive, Flush, Char, Unroute, Calls, InterPeer, IntraPeer, MayAdvance, Shape.Group, Shape.Local,
        Shape.Proc, Shape.Count;
  }

  lemma {:induction false} GatheredAlways(c: Shape, run: seq<Event>)
    requires c.Valid() && IsRun(c, run)
    ensures Gathered(c, Aml.After(c, run))
  {
    hide Do, Enabled;
    if run != [] {
      GatheredAlways(c, run[..|run| - 1]);
      GatheredKept(c, Aml.After(c, run[..|run| - 1]), run[|run| - 1]);
    }
  }

  // ----- Some step is possible -----

  /** The process that is furthest behind. */
  lemma {:induction false} Laggard(s: State, n: nat) returns (p: nat)
    requires n > 0
    ensures p < n && forall q: nat :: q < n ==> Arrived(s, q, s.epoch(p), Stage(s.pc(p)))
  {
    if n == 1 {
      p := 0;
    } else {
      var o := Laggard(s, n - 1);
      p := if Arrived(s, n - 1, s.epoch(o), Stage(s.pc(o))) then o else n - 1;
      forall q: nat | q < n ensures Arrived(s, q, s.epoch(p), Stage(s.pc(p))) {
        if q < n - 1 {
          assert Arrived(s, q, s.epoch(o), Stage(s.pc(o)));
        }
      }
    }
  }

  lemma {:induction false} SomeOut(k: Link, p: nat, n: nat) returns (q: nat)
    requires OutSum(k, p, n) > 0
    ensures q < n && Out(k, p, q) > 0
  {
    q := n - 1;
    if Out(k, p, q) == 0 {
      q := SomeOut(k, p, n - 1);
    }
  }

  /** What an unacknowledged buffer waits for. */
  lemma Awaits(k: Link, p: nat, n: nat) returns (q: nat)
    requires AcksExact(k, n) && p < n && k.ack(p) != 0
    ensures q < n && (k.chan(p, q) != [] || k.owed(q, p) > 0 || k.chan(q, p) != [])
  {
    q := SomeOut(k, p, n);
  }

  lemma SameEpoch(c: Shape, s: State, p: nat, q: nat)
    requires InStep(c, s) && p < c.Count() && q < c.Count() && s.pc(p) != AtWorld && s.epoch(q) >= s.epoch(p)
    ensures s.epoch(q) == s.epoch(p)
  {
    assert s.epoch(q) > s.epoch(p) ==> s.pc(p) == AtWorld;
  }

  lemma InterStep(c: Shape, s: State, p: nat) returns (e: Event)
    requires c.Valid() && Core(c, s) && p < c.Count() && s.pc(p) == AwaitAcks && s.inter.ack(p) != 0
    requires forall q: nat :: q < c.Count() ==> s.inbox(q) == [] && Arrived(s, q, s.epoch(p), 2)
    ensures Enabled(c, s, e) && Inside(e)
  {
    hide AcksExact, Quiet, Shape.Local, Shape.Group, InterFlushed, IntraFlushed, MayAdvance;
    var q := Awaits(s.inter, p, c.Count());
    assert StageFacts(c, s, q);
    assert Arrived(s, q, s.epoch(p), 2) && s.inbox(q) == [] && s.inbox(p) == [];
    SameEpoch(c, s, p, q);
    NothingOwed(s.inter, q, p);
    if s.inter.chan(q, p) != [] {
      e := Poll(p, q, 0);
    } else {
      UsedByChannel(s.inter, p, q);
      assert InterPair(c, p, q);
      assert !Arrived(s, p, s.epoch(q), 3);
      e := Poll(q, p, 0);
    }
  }

  lemma NothingOwed(k: Link, q: nat, p: nat)
    ensures Quiet(k, q, p) ==> k.owed(q, p) == 0
  {
  }

  lemma IntraStep(c: Shape, s: State, p: nat) returns (e: Event)
    requires c.Valid() && Core(c, s) && Gathered(c, s) && p < c.Count() && s.pc(p) == AwaitAcksIntra && s.intra.ack(p) != 0
    requires forall q: nat :: q < c.Count() ==> Arrived(s, q, s.epoch(p), 5)
    ensures Enabled(c, s, e) && Inside(e)
  {
    hide AcksExact, Quiet, Shape.Local, Shape.Group, InterFlushed, IntraFlushed, MayAdvance, ColumnArrived;
    var q := Awaits(s.intra, p, c.Count());
    assert StageFacts(c, s, q);
    assert Arrived(s, q, s.epoch(p), 5);
    SameEpoch(c, s, p, q);
    NothingOwed(s.intra, q, p);
    if s.intra.chan(q, p) != [] {
      e := PollIntra(p, q, 0);
    } else {
      UsedByChannel(s.intra, p, q);
      assert IntraPair(c, p, q);
      assert !Arrived(s, p, s.epoch(q), 6);
      e := PollIntra(q, p, 0);
    }
  }

  /** Whoever is furthest behind waits for nobody but its acknowledgements. */
  lemma MayGo(c: Shape, s: State, p: nat)
    requires c.Valid() && s.pc(p) != Running && forall q: nat :: q < c.Count() ==> Arrived(s, q, s.epoch(p), Stage(s.pc(p)))
    requires (s.pc(p) == AwaitAcks ==> s.inter.ack(p) == 0) && (s.pc(p) == AwaitAcksIntra ==> s.intra.ack(p) == 0)
    ensures MayAdvance(c, s, p)
  {
    hide Shape.Local, Shape.Group, Shape.Count;
    forall q: nat | q < c.Count()
      ensures s.pc(p) == AtInter ==> Arrived(s, q, s.epoch(p), 3)
      ensures s.pc(p) == AtIntra ==> Arrived(s, q, s.epoch(p), 6)
      ensures s.pc(p) == AtWorld ==> Arrived(s, q, s.epoch(p), 7)
    {
      assert Arrived(s, q, s.epoch(p), Stage(s.pc(p)));
    }
  }

  /** While every process is inside the barrier, some process can go on. */
  lemma NoDeadlock(c: Shape, s: State) returns (e: Event)
    requires c.Valid() && Core(c, s) && Gathered(c, s) && AllInside(c, s)
    ensures Enabled(c, s, e) && Inside(e)
  {
    hide Core, Gathered, Shape.Local, Shape.Group;
    assert c.Count() > 0 by { AtLeast(c.groups, c.size); }
    if p: nat :| p < c.Count() && s.inbox(p) != [] {
      e := Process(p);
    } else {
      var p := Laggard(s, c.Count());
      assert s.inbox(p) == [];
      if s.pc(p) == AwaitAcks && s.inter.ack(p) != 0 {
        forall q: nat | q < c.Count() ensures s.inbox(q) == [] && Arrived(s, q, s.epoch(p), 2) {
          assert Arrived(s, q, s.epoch(p), Stage(s.pc(p)));
        }
        e := InterStep(c, s, p);
      } else if s.pc(p) == AwaitAcksIntra && s.intra.ack(p) != 0 {
        forall q: nat | q < c.Count() ensures Arrived(s, q, s.epoch(p), 5) {
          assert Arrived(s, q, s.epoch(p), Stage(s.pc(p)));
        }
        e := IntraStep(c, s, p);
      } else {
        MayGo(c, s, p);
        e := Advance(p);
      }
    }
  }

  // ----- Only so many steps are possible -----

  /** What packets are good for: one step to receive, one more to acknowledge data, and w for every item in them. */
  ghost function Weight(ps: seq<Packet>, w: nat): (n: nat) {
    if ps == [] then 0
    else Weight(ps[..|ps| - 1], w) + PacketWeight(ps[|ps| - 1], w)
  }

  ghost function PacketWeight(x: Packet, w: nat): (n: nat) {
    w * |x.data| + if x.data == [] then 1 else 2
  }

  lemma WeightWith(ps: seq<Packet>, x: Packet, w: nat)
    ensures Weight(ps + [x], w) == Weight(ps, w) + PacketWeight(x, w)
  {
    hide PacketWeight;
    assert (ps + [x])[..|ps|] == ps;
  }

  lemma {:induction false} WeightWithout(ps: seq<Packet>, i: nat, w: nat)
    requires i < |ps|
    ensures Weight(ps, w) == Weight(Without(ps, i), w) + PacketWeight(ps[i], w)
  {
    hide Weight, PacketWeight;
    var n := |ps| - 1;
    var front := ps[..n];
    assert ps == front + [ps[n]];
    WeightWith(front, ps[n], w);
    if i == n {
      assert Without(ps, i) == front;
    } else {
      WeightWithout(front, i, w);
      assert Without(ps, i) == Without(front, i) + [ps[n]];
      WeightWith(Without(front, i), ps[n], w);
    }
  }

  ghost function Load(k: Link, w: nat, p: int, q: int): (n: nat) {
    w * |k.buf(p, q)| + Weight(k.chan(p, q), w)
  }

  ghost function RowLoad(k: Link, w: nat, p: int, n: nat): (s: nat) {
    if n == 0 then 0 else RowLoad(k, w, p, n - 1) + Load(k, w, p, n - 1)
  }

  ghost function TableLoad(k: Link, w: nat, m: nat, n: nat): (s: nat) {
    if m == 0 then 0 else TableLoad(k, w, m - 1, n) + RowLoad(k, w, m - 1, n)
  }

  /** Only the pair (p, q) changes. */
  ghost predicate LoadElsewhere(k: Link, r: Link, w: nat, p: int, q: int) {
    forall a: int, b: int :: a != p || b != q ==> Load(r, w, a, b) == Load(k, w, a, b)
  }

  lemma {:induction false} RowLoadChange(k: Link, r: Link, w: nat, p: int, q: int, a: int, n: nat)
    requires LoadElsewhere(k, r, w, p, q)
    ensures RowLoad(r, w, a, n) - RowLoad(k, w, a, n) == if a == p && 0 <= q < n then Load(r, w, p, q) - Load(k, w, p, q) else 0
  {
    hide Load;
    if n > 0 {
      RowLoadChange(k, r, w, p, q, a, n - 1);
    }
  }

  lemma {:induction false} TableLoadChange(k: Link, r: Link, w: nat, p: int, q: int, m: nat, n: nat)
    requires LoadElsewhere(k, r, w, p, q) && 0 <= q < n
    ensures TableLoad(r, w, m, n) - TableLoad(k, w, m, n) == if 0 <= p < m then Load(r, w, p, q) - Load(k, w, p, q) else 0
  {
    hide Load, RowLoad, LoadElsewhere;
    if m > 0 {
      TableLoadChange(k, r, w, p, q, m - 1, n);
      RowLoadChange(k, r, w, p, q, m - 1, n);
    }
  }

  /** A flush costs at most one packet. */
  lemma FlushLoad(k: Link, w: nat, p: nat, q: nat, n: nat)
    requires p < n && q < n
    ensures TableLoad(Flush(k, p, q), w, n, n) <= TableLoad(k, w, n, n) + 2
  {
    hide Weight, TableLoad;
    var r := Flush(k, p, q);
    WeightWith(k.chan(p, q), Packet(k.buf(p, q), k.owed(p, q)), w);
    TableLoadChange(k, r, w, p, q, n, n);
  }

  /** Receiving a packet frees what it is good for, except for the acknowledgement. */
  lemma ReceiveLoad(k: Link, w: nat, p: nat, q: nat, i: nat, now: bool, n: nat)
    requires p < n && q < n && p != q && i < |k.chan(q, p)|
    ensures TableLoad(Receive(k, p, q, i, now), w, n, n) + w * |k.chan(q, p)[i].data| < TableLoad(k, w, n, n)
  {
    hide Weight, TableLoad;
    var x := k.chan(q, p)[i];
    var taken := k.(chan := Put(k.chan, q, p, Without(k.chan(q, p), i)));
    WeightWithout(k.chan(q, p), i, w);
    TableLoadChange(k, taken, w, q, p, n, n);
    var r := Receive(k, p, q, i, now);
    WeightWith(k.chan(p, q), Packet([], 1), w);
    TableLoadChange(taken, r, w, p, q, n, n);
  }

  /** Posting an intra-group item costs at most one packet. */
  lemma PostLoad(k: Link, p: nat, q: nat, x: Item, header: nat, n: nat)
    requires p < n && q < n
    ensures TableLoad(Post(k, p, q, x, header), 0, n, n) <= TableLoad(k, 0, n, n) + 2
  {
    hide Weight, TableLoad, Occupied, Flush;
    FlushLoad(k, 0, p, q, n);
    EnqueueLoad(k, p, q, x, n);
    EnqueueLoad(Flush(k, p, q), p, q, x, n);
  }

  lemma EnqueueLoad(k: Link, p: nat, q: nat, x: Item, n: nat)
    requires p < n && q < n
    ensures TableLoad(Enqueue(k, p, q, x), 0, n, n) == TableLoad(k, 0, n, n)
  {
    hide Weight, TableLoad;
    TableLoadChange(k, Enqueue(k, p, q, x), 0, p, q, n, n);
  }

  /** The stages that a process still has before it. */
  function Ahead(c: Shape, pc: Pc): (n: nat) {
    match pc
    case Running => 0
    case FlushInter(i) => 6 + c.size + if i < c.groups then c.groups - i else 0
    case AwaitAcks => 5 + c.size
    case AtInter => 4 + c.size
    case FlushIntra(i) => 4 + if i < c.size then c.size - i else 0
    case AwaitAcksIntra => 3
    case AtIntra => 2
    case AtWorld => 1
  }

  ghost function Own(c: Shape, s: State, p: int): (n: nat) {
    3 * |s.inbox(p)| + 3 * Ahead(c, s.pc(p))
  }

  ghost function OwnSum(c: Shape, s: State, n: nat): (r: nat) {
    if n == 0 then 0 else OwnSum(c, s, n - 1) + Own(c, s, n - 1)
  }

  lemma {:induction false} OwnSumChange(c: Shape, s: State, r: State, p: nat, n: nat)
    requires forall a: int :: a != p ==> Own(c, r, a) == Own(c, s, a)
    ensures OwnSum(c, r, n) - OwnSum(c, s, n) == if p < n then Own(c, r, p) - Own(c, s, p) else 0
  {
    hide Own;
    if n > 0 {
      OwnSumChange(c, s, r, p, n - 1);
    }
  }

  /** A bound on the steps that are left before somebody leaves the barrier. */
  ghost function Budget(c: Shape, s: State): (n: nat) {
    TableLoad(s.inter, 3, c.Count(), c.Count()) + TableLoad(s.intra, 0, c.Count(), c.Count()) + OwnSum(c, s, c.Count())
  }

  lemma StepSpends(c: Shape, s: State, e: Event)
    requires c.Valid() && Wired(c, s) && Enabled(c, s, e) && Inside(e)
    ensures Budget(c, Do(c, s, e)) < Budget(c, s)
  {
    hide Wired, TableLoad, OwnSum, Flush, Receive, Post, Calls, Char, MayAdvance, Shape.Count, Shape.Proc, Shape.Group,
        Shape.Local;
    var n, r := c.Count(), Do(c, s, e);
    match e {
      case Poll(p, q, i) =>
        PollPair(c, s, p, q, i);
        ReceiveLoad(s.inter, 3, p, q, i, s.pc(p) != Running, n);
        OwnSumChange(c, s, r, p, n);
      case PollIntra(p, q, i) =>
        PollIntraPair(c, s, p, q, i);
        ReceiveLoad(s.intra, 0, p, q, i, s.pc(p) != Running, n);
        OwnSumChange(c, s, r, p, n);
      case Process(p) =>
        var x := s.inbox(p)[0];
        var from := c.Proc(c.Group(s.from(p)), c.Local(p));
        var q := c.Proc(c.Group(p), Unroute(c, x.routing));
        GroupMember(c, p, Unroute(c, x.routing));
        PostLoad(s.intra, p, q, Item(c.Group(from), x.body, x.interval), HEADER_INTRA, n);
        OwnSumChange(c, s, r, p, n);
      case Advance(p) =>
        NotRunning(c, s, p);
        AdvanceSpends(c, s, p);
    }
  }

  lemma NotRunning(c: Shape, s: State, p: nat)
    requires c.Valid() && MayAdvance(c, s, p)
    ensures s.pc(p) != Running
  {
  }

  lemma AdvanceSpends(c: Shape, s: State, p: nat)
    requires c.Valid() && p < c.Count() && s.pc(p) != Running
    ensures Budget(c, DoAdvance(c, s, p)) < Budget(c, s)
  {
    hide TableLoad, OwnSum, Flush, InterPeer, IntraPeer, Shape.Count;
    var n, r := c.Count(), DoAdvance(c, s, p);
    OwnSumChange(c, s, r, p, n);
    match s.pc(p)
    case FlushInter(i) =>
      PeerThere(c, p, i);
      FlushLoad(s.inter, 3, p, InterPeer(c, p, i), n);
    case FlushIntra(i) =>
      PeerThere(c, p, i);
      FlushLoad(s.intra, 0, p, IntraPeer(c, p, i), n);
    case _ =>
  }

  lemma PeerThere(c: Shape, p: nat, i: nat)
    requires c.Valid() && p < c.Count()
    ensures InterPeer(c, p, i) < c.Count() && IntraPeer(c, p, i) < c.Count()
  {
    hide Shape.Count, Shape.Proc, Shape.Group, Shape.Local;
    ProcOf(c, p);
    ProcFacts(c, (c.Group(p) + i) % c.groups, c.Local(p));
    ProcFacts(c, c.Group(p), (c.Local(p) + i) % c.size);
  }

  lemma GroupMember(c: Shape, p: nat, l: nat)
    requires c.Valid() && p < c.Count() && l < c.size
    ensures c.Proc(c.Group(p), l) < c.Count()
  {
    hide Shape.Count, Shape.Proc, Shape.Group, Shape.Local;
    ProcOf(c, p);
    ProcFacts(c, c.Group(p), l);
  }

  lemma PollPair(c: Shape, s: State, p: nat, q: nat, i: nat)
    requires c.Valid() && Wired(c, s) && i < |s.inter.chan(q, p)|
    ensures p != q
  {
    UsedByChannel(s.inter, q, p);
  }

  lemma PollIntraPair(c: Shape, s: State, p: nat, q: nat, i: nat)
    requires c.Valid() && Wired(c, s) && i < |s.intra.chan(q, p)|
    ensures p != q
  {
    UsedByChannel(s.intra, q, p);
  }

  // ----- The barrier ends -----

  /** Steps inside the barrier, each possible when it is taken. */
  ghost predicate Goes(c: Shape, s: State, steps: seq<Event>)
    requires c.Valid()
    decreases |steps|
  {
    steps == [] || (Inside(steps[0]) && Enabled(c, s, steps[0]) && Goes(c, Do(c, s, steps[0]), steps[1..]))
  }

  ghost function End(c: Shape, s: State, steps: seq<Event>): (r: State)
    requires c.Valid()
    decreases |steps|
  {
    if steps == [] then s else End(c, Do(c, s, steps[0]), steps[1..])
  }

  /** However the steps are chosen, there are at most as many as the budget allows. */
  lemma {:induction false} StepsAreBounded(c: Shape, s: State, steps: seq<Event>)
    requires c.Valid() && Core(c, s) && Goes(c, s, steps)
    ensures |steps| <= Budget(c, s)
    decreases |steps|
  {
    hide Core, Do, Budget, Enabled;
    if steps != [] {
      WiredIn(c, s);
      StepSpends(c, s, steps[0]);
      CoreKept(c, s, steps[0]);
      StepsAreBounded(c, Do(c, s, steps[0]), steps[1..]);
    }
  }

  lemma WiredIn(c: Shape, s: State)
    requires c.Valid() && Core(c, s)
    ensures Wired(c, s)
  {
  }

  /** Steps that go on until somebody leaves. */
  lemma {:induction false} GoOn(c: Shape, s: State) returns (steps: seq<Event>)
    requires c.Valid() && Core(c, s) && Gathered(c, s) && AllInside(c, s)
    ensures Goes(c, s, steps) && !AllInside(c, End(c, s, steps))
    decreases Budget(c, s)
  {
    hide Core, Gathered, AllInside, Do, Budget, Enabled;
    var e := NoDeadlock(c, s);
    var r := Do(c, s, e);
    WiredIn(c, s);
    StepSpends(c, s, e);
    CoreKept(c, s, e);
    GatheredKept(c, s, e);
    var rest := [];
    if AllInside(c, r) {
      rest := GoOn(c, r);
    }
    steps := [e] + rest;
    assert steps[1..] == rest;
  }

  /**
    From every reachable state in which all processes are inside the barrier: as long as nobody has left some
    step is possible, every choice of steps ends within the budget, and then somebody has left.
  */
  lemma BarrierEnds(c: Shape, run: seq<Event>, steps: seq<Event>) returns (more: seq<Event>)
    requires c.Valid() && IsRun(c, run) && AllInside(c, Aml.After(c, run)) && Goes(c, Aml.After(c, run), steps)
    ensures |steps| <= Budget(c, Aml.After(c, run))
    ensures var s := End(c, Aml.After(c, run), steps); AllInside(c, s) ==>
        Goes(c, s, more) && more != [] && !AllInside(c, End(c, s, more))
  {
    hide Core, Gathered, AllInside, Do, Budget, Enabled, IsRun, Aml.After;
    var s := Aml.After(c, run);
    CoreAlways(c, run);
    GatheredAlways(c, run);
    StepsAreBounded(c, s, steps);
    StillSound(c, s, steps);
    more := [];
    if AllInside(c, End(c, s, steps)) {
      more := GoOn(c, End(c, s, steps));
    }
  }

  lemma {:induction false} StillSound(c: Shape, s: State, steps: seq<Event>)
    requires c.Valid() && Core(c, s) && Gathered(c, s) && Goes(c, s, steps)
    ensures Core(c, End(c, s, steps)) && Gathered(c, End(c, s, steps))
    decreases |steps|
  {
    hide Core, Gathered, Do, Enabled;
    if steps != [] {
      CoreKept(c, s, steps[0]);
      GatheredKept(c, s, steps[0]);
      StillSound(c, Do(c, s, steps[0]), steps[1..]);
    }
  }
}
