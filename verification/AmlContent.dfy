/**
  Which messages a link holds: every buffered or travelling item is read back as
  the send that it stands for.
*/
module AmlContent {
  import opened AmlLink

  /** Processes are numbered group by group. */
  datatype Shape = Shape(groups: nat, size: nat) {
    ghost predicate Valid() {
      groups > 0 && size > 0
    }

    function Count(): (n: nat) {
      groups * size
    }

    function Group(p: nat): (g: nat)
      requires size > 0
    {
      p / size
    }

    function Local(p: nat): (l: nat)
      requires size > 0
      ensures l < size
    {
      p % size
    }

    function Proc(g: nat, l: nat): (p: nat) {
      g * size + l
    }
  }

  /** A send as the application made it, or a handler call as the receiver saw it. */
  datatype Message = Message(src: nat, dst: nat, body: Body, interval: nat)

  datatype Kind = Inter | Intra

  /** Storing a local index in a char keeps its low eight bits, with a sign. */
  function Char(l: int): (r: int) {
    (l + 128) % 256 - 128
  }

  /** Masking with groupmask, for group sizes that are powers of two. */
  function Unroute(c: Shape, routing: int): (l: nat)
    requires c.size > 0
    ensures l < c.size
  {
    routing % c.size
  }

  /** The message an item on its way from p to q stands for. */
  function Denote(c: Shape, kind: Kind, p: nat, q: nat, x: Item): (m: Message)
    requires c.size > 0
  {
    match kind
    case Inter => Message(p, c.Proc(c.Group(q), Unroute(c, x.routing)), x.body, x.interval)
    case Intra => Message(if x.routing < 0 then 0 else c.Proc(x.routing, c.Local(p)), q, x.body, x.interval)
  }

  /** How often m occurs among the items xs on their way from p to q. */
  ghost function Items(c: Shape, kind: Kind, p: nat, q: nat, xs: seq<Item>, m: Message): (n: nat)
    requires c.size > 0
  {
    if xs == [] then 0
    else Items(c, kind, p, q, xs[..|xs| - 1], m) + if Denote(c, kind, p, q, xs[|xs| - 1]) == m then 1 else 0
  }

  ghost function Packets(c: Shape, kind: Kind, p: nat, q: nat, ps: seq<Packet>, m: Message): (n: nat)
    requires c.size > 0
  {
    if ps == [] then 0
    else Packets(c, kind, p, q, ps[..|ps| - 1], m) + Items(c, kind, p, q, ps[|ps| - 1].data, m)
  }

  /** Copies of m buffered by p for q or travelling from p to q. */
  ghost function Cell(c: Shape, kind: Kind, k: Link, p: nat, q: nat, m: Message): (n: nat)
    requires c.size > 0
  {
    Items(c, kind, p, q, k.buf(p, q), m) + Packets(c, kind, p, q, k.chan(p, q), m)
  }

  ghost function Row(c: Shape, kind: Kind, k: Link, p: nat, n: nat, m: Message): (r: nat)
    requires c.size > 0
  {
    if n == 0 then 0 else Row(c, kind, k, p, n - 1, m) + Cell(c, kind, k, p, n - 1, m)
  }

  ghost function Rows(c: Shape, kind: Kind, k: Link, h: nat, n: nat, m: Message): (r: nat)
    requires c.size > 0
  {
    if h == 0 then 0 else Rows(c, kind, k, h - 1, n, m) + Row(c, kind, k, h - 1, n, m)
  }

  /** Copies of m that the link holds among n processes. */
  ghost function Content(c: Shape, kind: Kind, k: Link, n: nat, m: Message): (r: nat)
    requires c.size > 0
  {
    Rows(c, kind, k, n, n, m)
  }

  // ----- One cell changes -----

  lemma {:induction false} RowChange(c: Shape, kind: Kind, k: Link, r: Link, p: nat, q: nat, n: nat, m: Message)
    requires c.size > 0
    requires forall b: nat :: b != q ==> Cell(c, kind, r, p, b, m) == Cell(c, kind, k, p, b, m)
    ensures Row(c, kind, r, p, n, m) - Row(c, kind, k, p, n, m)
         == if q < n then Cell(c, kind, r, p, q, m) - Cell(c, kind, k, p, q, m) else 0
  {
    hide Cell;
    if n > 0 {
      RowChange(c, kind, k, r, p, q, n - 1, m);
    }
  }

  lemma {:induction false} RowsChange(c: Shape, kind: Kind, k: Link, r: Link, p: nat, q: nat, h: nat, n: nat, m: Message)
    requires c.size > 0 && q < n
    requires forall a: nat, b: nat :: a != p || b != q ==> Cell(c, kind, r, a, b, m) == Cell(c, kind, k, a, b, m)
    ensures Rows(c, kind, r, h, n, m) - Rows(c, kind, k, h, n, m)
         == if p < h then Cell(c, kind, r, p, q, m) - Cell(c, kind, k, p, q, m) else 0
  {
    hide Cell, Row;
    if h > 0 {
      RowsChange(c, kind, k, r, p, q, h - 1, n, m);
      RowChange(c, kind, k, r, h - 1, q, n, m);
    }
  }

  lemma {:induction false} PacketsWithout(c: Shape, kind: Kind, p: nat, q: nat, ps: seq<Packet>, i: nat, m: Message)
    requires c.size > 0 && i < |ps|
    ensures Packets(c, kind, p, q, ps, m)
         == Packets(c, kind, p, q, Without(ps, i), m) + Items(c, kind, p, q, ps[i].data, m)
  {
    hide Items;
    var n := |ps| - 1;
    if i == n {
      assert Without(ps, i) == ps[..n];
    } else {
      PacketsWithout(c, kind, p, q, ps[..n], i, m);
      assert Without(ps, i) == Without(ps[..n], i) + [ps[n]];
      PacketsWith(c, kind, p, q, Without(ps[..n], i), ps[n], m);
    }
  }

  lemma PacketsWith(c: Shape, kind: Kind, p: nat, q: nat, ps: seq<Packet>, x: Packet, m: Message)
    requires c.size > 0
    ensures Packets(c, kind, p, q, ps + [x], m) == Packets(c, kind, p, q, ps, m) + Items(c, kind, p, q, x.data, m)
  {
    assert (ps + [x])[..|ps|] == ps;
  }

  lemma ItemsWith(c: Shape, kind: Kind, p: nat, q: nat, xs: seq<Item>, x: Item, m: Message)
    requires c.size > 0
    ensures Items(c, kind, p, q, xs + [x], m)
         == Items(c, kind, p, q, xs, m) + if Denote(c, kind, p, q, x) == m then 1 else 0
  {
    assert (xs + [x])[..|xs|] == xs;
  }

  // ----- The three operations -----

  lemma EnqueueContent(c: Shape, kind: Kind, k: Link, p: nat, q: nat, x: Item, n: nat, m: Message)
    requires c.size > 0 && p < n && q < n
    ensures Content(c, kind, Enqueue(k, p, q, x), n, m)
         == Content(c, kind, k, n, m) + if Denote(c, kind, p, q, x) == m then 1 else 0
  {
    hide Items, Packets, Rows, Denote;
    ItemsWith(c, kind, p, q, k.buf(p, q), x, m);
    RowsChange(c, kind, k, Enqueue(k, p, q, x), p, q, n, n, m);
  }

  lemma FlushContent(c: Shape, kind: Kind, k: Link, p: nat, q: nat, n: nat, m: Message)
    requires c.size > 0 && p < n && q < n
    ensures Content(c, kind, Flush(k, p, q), n, m) == Content(c, kind, k, n, m)
  {
    hide Items, Packets, Rows, Denote;
    NoItems(c, kind, p, q, m);
    PacketsWith(c, kind, p, q, k.chan(p, q), Packet(k.buf(p, q), k.owed(p, q)), m);
    RowsChange(c, kind, k, Flush(k, p, q), p, q, n, n, m);
  }

  lemma ReceiveContent(c: Shape, kind: Kind, k: Link, p: nat, q: nat, i: nat, now: bool, n: nat, m: Message)
    requires c.size > 0 && p < n && q < n && p != q && i < |k.chan(q, p)|
    ensures Content(c, kind, k, n, m)
         == Content(c, kind, Receive(k, p, q, i, now), n, m) + Items(c, kind, q, p, k.chan(q, p)[i].data, m)
  {
    hide Items, Packets, Rows, Denote, Without;
    NoItems(c, kind, p, q, m);
    PacketsWithout(c, kind, q, p, k.chan(q, p), i, m);
    PacketsWith(c, kind, p, q, k.chan(p, q), Packet([], 1), m);
    RowsChange(c, kind, k, Receive(k, p, q, i, now), q, p, n, n, m);
  }

  lemma NoItems(c: Shape, kind: Kind, p: nat, q: nat, m: Message)
    requires c.size > 0
    ensures Items(c, kind, p, q, [], m) == 0
  {
  }

  // ----- An empty link -----

  lemma {:induction false} NoPackets(c: Shape, kind: Kind, p: nat, q: nat, ps: seq<Packet>, m: Message)
    requires c.size > 0 && forall i :: 0 <= i < |ps| ==> ps[i].data == []
    ensures Packets(c, kind, p, q, ps, m) == 0
  {
    if ps != [] {
      NoPackets(c, kind, p, q, ps[..|ps| - 1], m);
    }
  }

  lemma {:induction false} EmptyRow(c: Shape, kind: Kind, k: Link, p: nat, n: nat, m: Message)
    requires c.size > 0 && forall q: nat :: q < n ==> Cell(c, kind, k, p, q, m) == 0
    ensures Row(c, kind, k, p, n, m) == 0
  {
    hide Cell;
    if n > 0 {
      EmptyRow(c, kind, k, p, n - 1, m);
    }
  }

  lemma {:induction false} EmptyRows(c: Shape, kind: Kind, k: Link, h: nat, n: nat, m: Message)
    requires c.size > 0 && forall p: nat, q: nat :: p < h && q < n ==> Cell(c, kind, k, p, q, m) == 0
    ensures Rows(c, kind, k, h, n, m) == 0
  {
    hide Cell;
    if h > 0 {
      EmptyRows(c, kind, k, h - 1, n, m);
      EmptyRow(c, kind, k, h - 1, n, m);
    }
  }
}
