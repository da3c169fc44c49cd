/**
  The active-message protocol as a state machine: sends, polls, forwarding inside
  a group, and the barrier. A run is any interleaving of the steps of all the
  processes; messages in flight may be received in any order.
*/
module Aml {
  import opened AmlLink
  import opened AmlContent

  const AGGR := 32768
  const HEADER := 4
  const HEADER_INTRA := 5

  /** Where a process stands in aml_barrier; Running is outside it. */
  datatype Pc =
    | Running
    | FlushInter(i: nat)
    | AwaitAcks
    | AtInter
    | FlushIntra(i: nat)
    | AwaitAcksIntra
    | AtIntra
    | AtWorld

  function Stage(pc: Pc): (n: nat) {
    match pc
    case Running => 0
    case FlushInter(_) => 1
    case AwaitAcks => 2
    case AtInter => 3
    case FlushIntra(_) => 4
    case AwaitAcksIntra => 5
    case AtIntra => 6
    case AtWorld => 7
  }

  /**
    inbox(p): the rest of a received buffer that p is still processing, which
    came from process from(p). epoch(p): barriers p has completed. sent and
    handled record the sends made and the handler calls made.
  */
  datatype State = State(
    inter: Link,
    intra: Link,
    inbox: int -> seq<Item>,
    from: int -> nat,
    pc: int -> Pc,
    epoch: int -> nat,
    sent: multiset<Message>,
    handled: multiset<Message>)

  function Init(): (s: State) {
    State(Idle, Idle, p => [], p => 0, p => Running, p => 0, multiset{}, multiset{})
  }

  datatype Event =
    | Send(p: nat, dst: nat, body: Body)
    | Poll(p: nat, q: nat, i: nat)
    | Process(p: nat)
    | PollIntra(p: nat, q: nat, i: nat)
    | Enter(p: nat)
    | Advance(p: nat)

  // ----- Steps -----

  function Occupied(xs: seq<Item>, header: nat): (n: nat) {
    if xs == [] then 0 else Occupied(xs[..|xs| - 1], header) + |xs[|xs| - 1].body.data| + header
  }

  /** Append to the buffer for q, flushing it first when the message does not fit. */
  function Post(k: Link, p: nat, q: nat, x: Item, header: nat): (r: Link) {
    var nmax := AGGR - Occupied(k.buf(p, q), header) - header;
    Enqueue(if nmax < |x.body.data| then Flush(k, p, q) else k, p, q, x)
  }

  /** aml_send. */
  function DoSend(c: Shape, s: State, p: nat, dst: nat, body: Body): (r: State)
    requires c.Valid()
  {
    var m := Message(p, dst, body, s.epoch(p));
    var s := s.(sent := s.sent + multiset{m});
    if dst == p then s.(handled := s.handled + multiset{m})
    else if c.Group(dst) == c.Group(p) then
      s.(intra := Post(s.intra, p, c.Proc(c.Group(p), c.Local(dst)), Item(c.Group(p), body, s.epoch(p)), HEADER_INTRA))
    else
      s.(inter := Post(s.inter, p, c.Proc(c.Group(dst), c.Local(p)), Item(Char(c.Local(dst)), body, s.epoch(p)), HEADER))
  }

  /** aml_poll: take a buffer from another group and acknowledge it now or later. */
  function DoPoll(s: State, p: nat, q: nat, i: nat): (r: State)
    requires i < |s.inter.chan(q, p)|
  {
    s.(inter := Receive(s.inter, p, q, i, s.pc(p) != Running),
       inbox := Set(s.inbox, p, s.inter.chan(q, p)[i].data),
       from := Set<nat>(s.from, p, q))
  }

  /** One turn of the loop in process: handle the message here or forward it. */
  function DoProcess(c: Shape, s: State, p: nat): (r: State)
    requires c.Valid() && s.inbox(p) != []
  {
    var x := s.inbox(p)[0];
    var s := s.(inbox := Set(s.inbox, p, s.inbox(p)[1..]));
    var from := c.Proc(c.Group(s.from(p)), c.Local(p));
    var local := Unroute(c, x.routing);
    if local == c.Local(p) then
      s.(handled := s.handled + multiset{Message(from, p, x.body, x.interval)})
    else
      s.(intra := Post(s.intra, p, c.Proc(c.Group(p), local), Item(c.Group(from), x.body, x.interval), HEADER_INTRA))
  }

  /** The handler calls of process_intra at p, for a buffer from q. */
  function Calls(c: Shape, q: nat, p: nat, xs: seq<Item>): (m: multiset<Message>)
    requires c.Valid()
  {
    if xs == [] then multiset{}
    else Calls(c, q, p, xs[..|xs| - 1]) + multiset{Denote(c, Intra, q, p, xs[|xs| - 1])}
  }

  /** aml_poll_intra, with process_intra. */
  function DoPollIntra(c: Shape, s: State, p: nat, q: nat, i: nat): (r: State)
    requires c.Valid() && i < |s.intra.chan(q, p)|
  {
    s.(intra := Receive(s.intra, p, q, i, s.pc(p) != Running),
       handled := s.handled + Calls(c, q, p, s.intra.chan(q, p)[i].data))
  }

  /** The peers a barrier flushes to, in the order of its two loops. */
  function InterPeer(c: Shape, p: nat, i: nat): (q: nat)
    requires c.Valid()
  {
    c.Proc((c.Group(p) + i) % c.groups, c.Local(p))
  }

  function IntraPeer(c: Shape, p: nat, i: nat): (q: nat)
    requires c.Valid()
  {
    c.Proc(c.Group(p), (c.Local(p) + i) % c.size)
  }

  /** q has reached the given stage of the barrier that ends interval e. */
  predicate Arrived(s: State, q: nat, e: nat, stage: nat) {
    s.epoch(q) > e || (s.epoch(q) == e && Stage(s.pc(q)) >= stage)
  }

  /** The next move of p inside aml_barrier. */
  function DoAdvance(c: Shape, s: State, p: nat): (r: State)
    requires c.Valid()
  {
    match s.pc(p)
    case Running => s
    case FlushInter(i) =>
      if i < c.groups then
        s.(inter := Flush(s.inter, p, InterPeer(c, p, i)), pc := Set(s.pc, p, FlushInter(i + 1)))
      else s.(pc := Set(s.pc, p, AwaitAcks))
    case AwaitAcks => s.(pc := Set(s.pc, p, AtInter))
    case AtInter => s.(pc := Set(s.pc, p, FlushIntra(1)))
    case FlushIntra(i) =>
      if i < c.size then
        s.(intra := Flush(s.intra, p, IntraPeer(c, p, i)), pc := Set(s.pc, p, FlushIntra(i + 1)))
      else s.(pc := Set(s.pc, p, AwaitAcksIntra))
    case AwaitAcksIntra => s.(pc := Set(s.pc, p, AtIntra))
    case AtIntra => s.(pc := Set(s.pc, p, AtWorld))
    case AtWorld => s.(pc := Set(s.pc, p, Running), epoch := Set<nat>(s.epoch, p, s.epoch(p) + 1))
  }

  /** When p may leave its present stage; a collective barrier waits for all its members. */
  ghost predicate MayAdvance(c: Shape, s: State, p: nat)
    requires c.Valid()
  {
    match s.pc(p)
    case Running => false
    case FlushInter(_) => true
    case AwaitAcks => s.inter.ack(p) == 0
    case AtInter =>
      forall q: nat :: q < c.Count() && c.Local(q) == c.Local(p) ==> Arrived(s, q, s.epoch(p), 3)
    case FlushIntra(_) => true
    case AwaitAcksIntra => s.intra.ack(p) == 0
    case AtIntra =>
      forall q: nat :: q < c.Count() && c.Group(q) == c.Group(p) ==> Arrived(s, q, s.epoch(p), 6)
    case AtWorld => forall q: nat :: q < c.Count() ==> Arrived(s, q, s.epoch(p), 7)
  }

  ghost predicate Enabled(c: Shape, s: State, e: Event)
    requires c.Valid()
  {
    match e
    case Send(p, dst, _) => p < c.Count() && dst < c.Count() && s.pc(p) == Running && s.inbox(p) == []
    case Poll(p, q, i) =>
      p < c.Count() && q < c.Count() && Stage(s.pc(p)) <= 3 && s.inbox(p) == [] && i < |s.inter.chan(q, p)|
    case Process(p) => p < c.Count() && s.inbox(p) != []
    case PollIntra(p, q, i) => p < c.Count() && q < c.Count() && s.pc(p) != AtWorld && i < |s.intra.chan(q, p)|
    case Enter(p) => p < c.Count() && s.pc(p) == Running && s.inbox(p) == []
    case Advance(p) => p < c.Count() && s.inbox(p) == [] && MayAdvance(c, s, p)
  }

  function Do(c: Shape, s: State, e: Event): (r: State)
    requires c.Valid()
  {
    match e
    case Send(p, dst, body) => DoSend(c, s, p, dst, body)
    case Poll(p, q, i) => if i < |s.inter.chan(q, p)| then DoPoll(s, p, q, i) else s
    case Process(p) => if s.inbox(p) != [] then DoProcess(c, s, p) else s
    case PollIntra(p, q, i) => if i < |s.intra.chan(q, p)| then DoPollIntra(c, s, p, q, i) else s
    case Enter(p) => s.(pc := Set(s.pc, p, FlushInter(1)))
    case Advance(p) => DoAdvance(c, s, p)
  }

  /** A run is a list of events, each enabled when it happens. */
  ghost predicate IsRun(c: Shape, run: seq<Event>)
    requires c.Valid()
  {
    run == [] || (IsRun(c, run[..|run| - 1]) && Enabled(c, After(c, run[..|run| - 1]), run[|run| - 1]))
  }

  ghost function After(c: Shape, run: seq<Event>): (s: State)
    requires c.Valid()
  {
    if run == [] then Init() else Do(c, After(c, run[..|run| - 1]), run[|run| - 1])
  }
}
