/**
  Invariants of every run of the active-message protocol, and what they give:
  exact acknowledgement counters, conservation of messages, and a barrier that
  leaves nothing sent before it undelivered.
*/
module AmlProof {
  import opened AmlLink
  import opened AmlContent
  import opened Aml

  // ----- Numbering -----

  lemma ProcFacts(c: Shape, g: nat, l: nat)
    requires c.Valid() && l < c.size
    ensures c.Group(c.Proc(g, l)) == g && c.Local(c.Proc(g, l)) == l
    ensures g < c.groups ==> c.Proc(g, l) < c.Count()
  {
    DivMod(g, l, c.size);
    AtLeast(c.groups - g, c.size);
    assert (c.groups - g) * c.size == c.groups * c.size - g * c.size;
  }

  lemma {:induction false} DivMod(g: nat, l: nat, n: nat)
    requires l < n
    ensures (g * n + l) / n == g && (g * n + l) % n == l
  {
    if g > 0 {
      DivMod(g - 1, l, n);
      var x := (g - 1) * n + l;
      assert g * n + l == x + n;
      Next(x, n);
    }
  }

  lemma Next(x: nat, n: nat)
    requires n > 0
    ensures (x + n) / n == x / n + 1 && (x + n) % n == x % n
  {
    var q, q' := x / n, (x + n) / n;
    var d := q' - q - 1;
    assert d * n == q' * n - q * n - n;
    assert d * n == x % n - (x + n) % n;
    Small(d, n, x % n - (x + n) % n);
  }

  lemma Small(d: int, n: int, r: int)
    requires d * n == r && -n < r < n
    ensures d == 0
  {
    AtLeast(d, n);
  }

  lemma AtLeast(d: int, n: int)
    requires n >= 0
    ensures d >= 1 ==> d * n >= n
    ensures d <= -1 ==> d * n <= -n
  {
    if d >= 1 {
      assert (d - 1) * n >= 0;
    } else if d <= -1 {
      assert (-d - 1) * n >= 0;
    }
  }

  lemma ProcOf(c: Shape, p: nat)
    requires c.Valid()
    ensures c.Proc(c.Group(p), c.Local(p)) == p
    ensures p < c.Count() ==> c.Group(p) < c.groups
  {
    assert p == (p / c.size) * c.size + p % c.size;
    AtLeast(c.Group(p) - c.groups, c.size);
    assert (c.Group(p) - c.groups) * c.size == c.Group(p) * c.size - c.groups * c.size;
  }

  /** aml_init accepts only group sizes that are powers of two. */
  ghost predicate PowerOfTwo(n: nat) {
    n == 1 || (n > 1 && n % 2 == 0 && PowerOfTwo(n / 2))
  }

  /** Every local index that travels between groups survives the char that carries it. */
  ghost predicate RoutingExact(c: Shape)
    requires c.Valid()
  {
    c.groups > 1 ==> forall l: nat :: l < c.size ==> Unroute(c, Char(l)) == l
  }

  /** The widest configuration that the one-byte routing field can serve. */
  predicate RoutingFits(c: Shape) {
    c.groups == 1 || c.size <= 256
  }

  lemma SmallPowers(n: nat)
    requires PowerOfTwo(n) && n <= 256
    ensures n in {1, 2, 4, 8, 16, 32, 64, 128, 256}
  {
    if n > 1 { SmallPowers(n / 2); }
  }

  lemma FittingRoutesExactly(c: Shape)
    requires c.Valid() && PowerOfTwo(c.size) && RoutingFits(c)
    ensures RoutingExact(c)
  {
    if c.groups > 1 {
      SmallPowers(c.size);
      forall l: nat | l < c.size ensures Unroute(c, Char(l)) == l {
        OneSize(c.size, l);
      }
    }
  }

  /** A char keeps the low bits of a local index. */
  lemma OneSize(size: nat, local: nat)
    requires size in {1, 2, 4, 8, 16, 32, 64, 128, 256} && local < size
    ensures Char(local) % size == local
  {
  }

  // ----- Invariants -----

  ghost predicate InterPair(c: Shape, p: nat, q: nat)
    requires c.Valid()
  {
    p < c.Count() && q < c.Count() && p != q && c.Local(p) == c.Local(q)
  }

  ghost predicate IntraPair(c: Shape, p: nat, q: nat)
    requires c.Valid()
  {
    p < c.Count() && q < c.Count() && p != q && c.Group(p) == c.Group(q)
  }

  ghost predicate Used(k: Link, p: nat, q: nat) {
    k.buf(p, q) != [] || k.chan(p, q) != [] || k.owed(p, q) != 0
  }

  /** Links carry messages only where they should. */
  ghost predicate Wired(c: Shape, s: State)
    requires c.Valid()
  {
    && (forall p: nat, q: nat :: Used(s.inter, p, q) ==> InterPair(c, p, q))
    && (forall p: nat, q: nat :: Used(s.intra, p, q) ==> IntraPair(c, p, q))
    && (forall p: nat :: s.inbox(p) != [] ==> InterPair(c, s.from(p), p))
  }

  ghost predicate Acks(c: Shape, s: State) {
    AcksExact(s.inter, c.Count()) && AcksExact(s.intra, c.Count())
  }

  /** Copies of m in receive buffers that are still being processed. */
  ghost function Inboxes(c: Shape, s: State, n: nat, m: Message): (r: nat)
    requires c.Valid()
  {
    if n == 0 then 0 else Inboxes(c, s, n - 1, m) + Items(c, Inter, s.from(n - 1), n - 1, s.inbox(n - 1), m)
  }

  ghost function Transit(c: Shape, s: State, m: Message): (r: nat)
    requires c.Valid()
  {
    var n := c.Count();
    Content(c, Inter, s.inter, n, m) + Content(c, Intra, s.intra, n, m) + Inboxes(c, s, n, m)
  }

  /** Every send is handled once or still under way once. */
  ghost predicate Conserved(c: Shape, s: State)
    requires c.Valid()
  {
    forall m :: s.sent[m] == s.handled[m] + Transit(c, s, m)
  }

  // ----- Wiring -----

  lemma WiredFlush(k: Link, p: nat, q: nat)
    ensures forall a: nat, b: nat :: Used(Flush(k, p, q), a, b) ==> Used(k, a, b)
  {
  }

  lemma WiredReceive(k: Link, p: nat, q: nat, i: nat, now: bool)
    requires p != q && i < |k.chan(q, p)|
    ensures forall a: nat, b: nat :: Used(Receive(k, p, q, i, now), a, b) ==> Used(k, a, b) || (a == p && b == q)
    ensures Used(k, q, p)
  {
  }

  lemma WiredPost(k: Link, p: nat, q: nat, x: Item, header: nat)
    ensures forall a: nat, b: nat :: Used(Post(k, p, q, x, header), a, b) ==> Used(k, a, b) || (a == p && b == q)
  {
    hide Occupied;
    WiredFlush(k, p, q);
  }

  lemma PeerFacts(c: Shape, p: nat, g: nat, l: nat)
    requires c.Valid() && p < c.Count() && g < c.groups && l < c.size
    ensures g != c.Group(p) ==> InterPair(c, p, c.Proc(g, c.Local(p)))
    ensures l != c.Local(p) ==> IntraPair(c, p, c.Proc(c.Group(p), l))
  {
    ProcOf(c, p);
    ProcFacts(c, g, c.Local(p));
    ProcFacts(c, c.Group(p), l);
  }

  lemma SendKeepsWired(c: Shape, s: State, p: nat, dst: nat, body: Body)
    requires c.Valid() && Wired(c, s) && Enabled(c, s, Send(p, dst, body))
    ensures Wired(c, DoSend(c, s, p, dst, body))
  {
    hide Used, Post, Char, InterPair, IntraPair, Shape.Group, Shape.Local, Shape.Proc;
    ProcOf(c, p);
    ProcOf(c, dst);
    PeerFacts(c, p, c.Group(dst), c.Local(dst));
    WiredPost(s.intra, p, c.Proc(c.Group(p), c.Local(dst)), Item(c.Group(p), body, s.epoch(p)), HEADER_INTRA);
    WiredPost(s.inter, p, c.Proc(c.Group(dst), c.Local(p)), Item(Char(c.Local(dst)), body, s.epoch(p)), HEADER);
  }

  lemma PollKeepsWired(c: Shape, s: State, p: nat, q: nat, i: nat)
    requires c.Valid() && Wired(c, s) && i < |s.inter.chan(q, p)|
    ensures p != q && Wired(c, DoPoll(s, p, q, i))
  {
    hide Receive;
    assert Used(s.inter, q, p);
    WiredReceive(s.inter, p, q, i, s.pc(p) != Running);
  }

  lemma PollIntraKeepsWired(c: Shape, s: State, p: nat, q: nat, i: nat)
    requires c.Valid() && Wired(c, s) && i < |s.intra.chan(q, p)|
    ensures p != q && Wired(c, DoPollIntra(c, s, p, q, i))
  {
    hide Receive, Calls;
    assert Used(s.intra, q, p);
    WiredReceive(s.intra, p, q, i, s.pc(p) != Running);
  }

  lemma ProcessKeepsWired(c: Shape, s: State, p: nat)
    requires c.Valid() && Wired(c, s) && p < c.Count() && s.inbox(p) != []
    ensures Wired(c, DoProcess(c, s, p))
  {
    hide Post, Used, Unroute, Shape.Group, Shape.Local, Shape.Proc;
    var x := s.inbox(p)[0];
    var local := Unroute(c, x.routing);
    var from := c.Proc(c.Group(s.from(p)), c.Local(p));
    ProcOf(c, p);
    PeerFacts(c, p, c.Group(p), local);
    WiredPost(s.intra, p, c.Proc(c.Group(p), local), Item(c.Group(from), x.body, x.interval), HEADER_INTRA);
  }

  lemma AdvanceKeepsWired(c: Shape, s: State, p: nat)
    requires c.Valid() && Wired(c, s)
    ensures Wired(c, DoAdvance(c, s, p))
  {
    hide Flush, Used, InterPeer, IntraPeer;
    match s.pc(p)
    case FlushInter(i) => WiredFlush(s.inter, p, InterPeer(c, p, i));
    case FlushIntra(i) => WiredFlush(s.intra, p, IntraPeer(c, p, i));
    case _ =>
  }

  // ----- Acknowledgement counters -----

  lemma PostExact(k: Link, p: nat, q: nat, x: Item, header: nat, n: nat)
    requires AcksExact(k, n) && p < n && q < n && p != q
    ensures AcksExact(Post(k, p, q, x, header), n)
  {
    hide AcksExact, Flush, Enqueue, Occupied;
    FlushExact(k, p, q, n);
    EnqueueExact(k, p, q, x, n);
    EnqueueExact(Flush(k, p, q), p, q, x, n);
  }

  lemma SendKeepsAcks(c: Shape, s: State, p: nat, dst: nat, body: Body)
    requires c.Valid() && Acks(c, s) && Enabled(c, s, Send(p, dst, body))
    ensures Acks(c, DoSend(c, s, p, dst, body))
  {
    hide AcksExact, Post, Char, Shape.Group, Shape.Local, Shape.Proc, Shape.Count;
    ProcOf(c, p);
    ProcOf(c, dst);
    PeerFacts(c, p, c.Group(dst), c.Local(dst));
    if dst != p {
      if c.Group(dst) == c.Group(p) {
        PostExact(s.intra, p, c.Proc(c.Group(p), c.Local(dst)), Item(c.Group(p), body, s.epoch(p)), HEADER_INTRA, c.Count());
      } else {
        PostExact(s.inter, p, c.Proc(c.Group(dst), c.Local(p)), Item(Char(c.Local(dst)), body, s.epoch(p)), HEADER, c.Count());
      }
    }
  }

  lemma PollKeepsAcks(c: Shape, s: State, p: nat, q: nat, i: nat)
    requires c.Valid() && Acks(c, s) && p < c.Count() && q < c.Count() && p != q && i < |s.inter.chan(q, p)|
    ensures Acks(c, DoPoll(s, p, q, i))
  {
    hide AcksExact, Receive;
    ReceiveExact(s.inter, p, q, i, s.pc(p) != Running, c.Count());
  }

  lemma PollIntraKeepsAcks(c: Shape, s: State, p: nat, q: nat, i: nat)
    requires c.Valid() && Acks(c, s) && p < c.Count() && q < c.Count() && p != q && i < |s.intra.chan(q, p)|
    ensures Acks(c, DoPollIntra(c, s, p, q, i))
  {
    hide AcksExact, Receive, Calls;
    ReceiveExact(s.intra, p, q, i, s.pc(p) != Running, c.Count());
  }

  lemma ProcessKeepsAcks(c: Shape, s: State, p: nat)
    requires c.Valid() && Acks(c, s) && p < c.Count() && s.inbox(p) != []
    ensures Acks(c, DoProcess(c, s, p))
  {
    hide AcksExact, Post, Unroute, Shape.Group, Shape.Local, Shape.Proc, Shape.Count;
    var x := s.inbox(p)[0];
    var local := Unroute(c, x.routing);
    var from := c.Proc(c.Group(s.from(p)), c.Local(p));
    ProcOf(c, p);
    if local != c.Local(p) {
      PeerFacts(c, p, c.Group(p), local);
      PostExact(s.intra, p, c.Proc(c.Group(p), local), Item(c.Group(from), x.body, x.interval), HEADER_INTRA, c.Count());
    }
  }

  lemma PeersInRange(c: Shape, p: nat, i: nat)
    requires c.Valid() && p < c.Count() && 1 <= i
    ensures i < c.groups ==> InterPair(c, p, InterPeer(c, p, i))
    ensures i < c.size ==> IntraPair(c, p, IntraPeer(c, p, i))
  {
    ProcOf(c, p);
    var g, l := (c.Group(p) + i) % c.groups, (c.Local(p) + i) % c.size;
    if i < c.groups {
      Rotate(c.Group(p), i, c.groups);
      PeerFacts(c, p, g, c.Local(p));
    }
    if i < c.size {
      Rotate(c.Local(p), i, c.size);
      PeerFacts(c, p, c.Group(p), l);
    }
  }

  lemma Rotate(a: nat, i: nat, n: nat)
    requires a < n && 1 <= i < n
    ensures (a + i) % n == if a + i < n then a + i else a + i - n
    ensures (a + i) % n != a
  {
    DivMod(if a + i < n then 0 else 1, if a + i < n then a + i else a + i - n, n);
  }

  lemma AdvanceKeepsAcks(c: Shape, s: State, p: nat)
    requires c.Valid() && Acks(c, s) && p < c.Count()
    requires s.pc(p).FlushInter? || s.pc(p).FlushIntra? ==> s.pc(p).i >= 1
    ensures Acks(c, DoAdvance(c, s, p))
  {
    hide AcksExact, Flush, InterPeer, IntraPeer, Shape.Count;
    match s.pc(p)
    case FlushInter(i) =>
      if i < c.groups {
        PeersInRange(c, p, i);
        FlushExact(s.inter, p, InterPeer(c, p, i), c.Count());
      }
    case FlushIntra(i) =>
      if i < c.size {
        PeersInRange(c, p, i);
        FlushExact(s.intra, p, IntraPeer(c, p, i), c.Count());
      }
    case _ =>
  }

  // ----- Conservation -----

  lemma PostContent(c: Shape, kind: Kind, k: Link, p: nat, q: nat, x: Item, header: nat, n: nat, m: Message)
    requires c.Valid() && p < n && q < n
    ensures Content(c, kind, Post(k, p, q, x, header), n, m)
         == Content(c, kind, k, n, m) + if Denote(c, kind, p, q, x) == m then 1 else 0
  {
    hide Content, Flush, Enqueue, Occupied, Denote;
    FlushContent(c, kind, k, p, q, n, m);
    EnqueueContent(c, kind, k, p, q, x, n, m);
    EnqueueContent(c, kind, Flush(k, p, q), p, q, x, n, m);
  }

  lemma {:induction false} InboxesChange(c: Shape, s: State, r: State, p: nat, n: nat, m: Message)
    requires c.Valid()
    requires forall a: nat :: a != p ==> r.inbox(a) == s.inbox(a) && r.from(a) == s.from(a)
    ensures Inboxes(c, r, n, m) - Inboxes(c, s, n, m)
         == if p < n then Items(c, Inter, r.from(p), p, r.inbox(p), m) - Items(c, Inter, s.from(p), p, s.inbox(p), m) else 0
  {
    hide Items;
    if n > 0 {
      InboxesChange(c, s, r, p, n - 1, m);
    }
  }

  lemma SendDenotes(c: Shape, p: nat, dst: nat, body: Body, e: nat)
    requires c.Valid() && RoutingExact(c) && p < c.Count() && dst < c.Count()
    ensures c.Group(dst) == c.Group(p) ==>
              Denote(c, Intra, p, c.Proc(c.Group(p), c.Local(dst)), Item(c.Group(p), body, e)) == Message(p, dst, body, e)
    ensures c.Group(dst) != c.Group(p) ==>
              Denote(c, Inter, p, c.Proc(c.Group(dst), c.Local(p)), Item(Char(c.Local(dst)), body, e)) == Message(p, dst, body, e)
  {
    hide Char, Unroute, Shape.Group, Shape.Local, Shape.Proc;
    ProcOf(c, p);
    ProcOf(c, dst);
    ProcFacts(c, c.Group(dst), c.Local(p));
  }

  lemma SendConserves(c: Shape, s: State, p: nat, dst: nat, body: Body)
    requires c.Valid() && RoutingExact(c) && Conserved(c, s) && Enabled(c, s, Send(p, dst, body))
    ensures Conserved(c, DoSend(c, s, p, dst, body))
  {
    hide RoutingExact, Content, Inboxes, Post, Char, Denote, Shape.Group, Shape.Local, Shape.Proc, Shape.Count;
    var r, n, e := DoSend(c, s, p, dst, body), c.Count(), s.epoch(p);
    ProcOf(c, p);
    ProcOf(c, dst);
    PeerFacts(c, p, c.Group(dst), c.Local(dst));
    SendDenotes(c, p, dst, body, e);
    forall m ensures r.sent[m] == r.handled[m] + Transit(c, r, m) {
      InboxesChange(c, s, r, n, n, m);
      if dst != p {
        if c.Group(dst) == c.Group(p) {
          PostContent(c, Intra, s.intra, p, c.Proc(c.Group(p), c.Local(dst)), Item(c.Group(p), body, e), HEADER_INTRA, n, m);
        } else {
          PostContent(c, Inter, s.inter, p, c.Proc(c.Group(dst), c.Local(p)), Item(Char(c.Local(dst)), body, e), HEADER, n, m);
        }
      }
    }
  }

  lemma PollConserves(c: Shape, s: State, p: nat, q: nat, i: nat)
    requires c.Valid() && Conserved(c, s) && p < c.Count() && q < c.Count() && p != q && s.inbox(p) == []
    requires i < |s.inter.chan(q, p)|
    ensures Conserved(c, DoPoll(s, p, q, i))
  {
    hide Content, Inboxes, Items, Receive, Shape.Count;
    var r, n := DoPoll(s, p, q, i), c.Count();
    forall m ensures r.sent[m] == r.handled[m] + Transit(c, r, m) {
      InboxesChange(c, s, r, p, n, m);
      NoItems(c, Inter, s.from(p), p, m);
      ReceiveContent(c, Inter, s.inter, p, q, i, s.pc(p) != Running, n, m);
    }
  }

  lemma {:induction false} ItemsHead(c: Shape, kind: Kind, p: nat, q: nat, xs: seq<Item>, m: Message)
    requires c.Valid() && xs != []
    ensures Items(c, kind, p, q, xs, m)
         == Items(c, kind, p, q, xs[1..], m) + if Denote(c, kind, p, q, xs[0]) == m then 1 else 0
  {
    hide Denote;
    var n := |xs| - 1;
    if n > 0 {
      ItemsHead(c, kind, p, q, xs[..n], m);
      assert xs[..n][1..] == xs[1..][..n - 1];
    }
  }

  lemma ProcessDenotes(c: Shape, p: nat, from: nat, x: Item)
    requires c.Valid() && InterPair(c, from, p)
    ensures var local := Unroute(c, x.routing); var src := c.Proc(c.Group(from), c.Local(p));
      && src == from
      && (local == c.Local(p) ==> Denote(c, Inter, from, p, x) == Message(src, p, x.body, x.interval))
      && Denote(c, Intra, p, c.Proc(c.Group(p), local), Item(c.Group(src), x.body, x.interval)) == Denote(c, Inter, from, p, x)
  {
    hide Unroute, Shape.Group, Shape.Local, Shape.Proc, Shape.Count;
    ProcOf(c, p);
    ProcOf(c, from);
  }

  lemma ProcessConserves(c: Shape, s: State, p: nat)
    requires c.Valid() && Conserved(c, s) && Wired(c, s) && p < c.Count() && s.inbox(p) != []
    ensures Conserved(c, DoProcess(c, s, p))
  {
    hide Content, Inboxes, Items, Post, Unroute, Denote, Used, Shape.Group, Shape.Local, Shape.Proc, Shape.Count;
    var r, n, x := DoProcess(c, s, p), c.Count(), s.inbox(p)[0];
    var local := Unroute(c, x.routing);
    var from := c.Proc(c.Group(s.from(p)), c.Local(p));
    ProcOf(c, p);
    PeerFacts(c, p, c.Group(p), local);
    ProcessDenotes(c, p, s.from(p), x);
    forall m ensures r.sent[m] == r.handled[m] + Transit(c, r, m) {
      InboxesChange(c, s, r, p, n, m);
      ItemsHead(c, Inter, s.from(p), p, s.inbox(p), m);
      if local != c.Local(p) {
        PostContent(c, Intra, s.intra, p, c.Proc(c.Group(p), local), Item(c.Group(from), x.body, x.interval), HEADER_INTRA, n, m);
      }
    }
  }

  lemma {:induction false} CallsCount(c: Shape, q: nat, p: nat, xs: seq<Item>, m: Message)
    requires c.Valid()
    ensures Calls(c, q, p, xs)[m] == Items(c, Intra, q, p, xs, m)
  {
    hide Denote;
    if xs != [] {
      CallsCount(c, q, p, xs[..|xs| - 1], m);
    }
  }

  lemma PollIntraConserves(c: Shape, s: State, p: nat, q: nat, i: nat)
    requires c.Valid() && Conserved(c, s) && p < c.Count() && q < c.Count() && p != q
    requires i < |s.intra.chan(q, p)|
    ensures Conserved(c, DoPollIntra(c, s, p, q, i))
  {
    hide Content, Inboxes, Items, Receive, Calls, Shape.Count;
    var r, n := DoPollIntra(c, s, p, q, i), c.Count();
    forall m ensures r.sent[m] == r.handled[m] + Transit(c, r, m) {
      InboxesChange(c, s, r, n, n, m);
      ReceiveContent(c, Intra, s.intra, p, q, i, s.pc(p) != Running, n, m);
      CallsCount(c, q, p, s.intra.chan(q, p)[i].data, m);
    }
  }

  lemma AdvanceConserves(c: Shape, s: State, p: nat)
    requires c.Valid() && Conserved(c, s) && p < c.Count()
    requires s.pc(p).FlushInter? || s.pc(p).FlushIntra? ==> s.pc(p).i >= 1
    ensures Conserved(c, DoAdvance(c, s, p))
  {
    hide Content, Inboxes, Flush, InterPeer, IntraPeer, Shape.Count;
    var r, n := DoAdvance(c, s, p), c.Count();
    forall m ensures r.sent[m] == r.handled[m] + Transit(c, r, m) {
      InboxesChange(c, s, r, n, n, m);
      match s.pc(p)
      case FlushInter(i) =>
        if i < c.groups {
          PeersInRange(c, p, i);
          FlushContent(c, Inter, s.inter, p, InterPeer(c, p, i), n, m);
        }
      case FlushIntra(i) =>
        if i < c.size {
          PeersInRange(c, p, i);
          FlushContent(c, Intra, s.intra, p, IntraPeer(c, p, i), n, m);
        }
      case _ =>
    }
  }
}
