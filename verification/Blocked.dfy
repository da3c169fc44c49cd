/**
  Clients blocked on keys: each client keeps the keys it waits for with its place in
  their lists, each key keeps its list of clients, and counters follow both.
*/
module Blocked {
  import opened Common

  /** A key of a database; a blocked client does not change its database. */
  datatype Key = Key(db: nat, name: string)

  datatype BType = NotBlocked | List | Zset | Stream | Module | Wait | WaitAof | Postpone | Shutdown

  /** A node of a key's list. */
  datatype Waiter = Waiter(node: nat, client: nat)

  datatype Client = Client(btype: BType, keys: map<Key, nat>, onNoKey: bool, isModule: bool)

  type Clients = map<nat, Client>
  type Index = map<Key, seq<Waiter>>

  // ----- The two-way index -----

  ghost predicate Distinct(ws: seq<Waiter>) {
    forall i, j :: 0 <= i < j < |ws| ==> ws[i].node != ws[j].node && ws[i].client != ws[j].client
  }

  /** Everyone in a key's list waits for that key at that node. */
  ghost predicate ListOk(clients: Clients, key: Key, ws: seq<Waiter>) {
    && ws != [] && Distinct(ws)
    && forall i :: 0 <= i < |ws| ==>
         ws[i].client in clients && key in clients[ws[i].client].keys && clients[ws[i].client].keys[key] == ws[i].node
  }

  ghost predicate ListsOk(clients: Clients, blocking: Index) {
    forall key :: key in blocking ==> ListOk(clients, key, blocking[key])
  }

  /** Whoever waits for a key is in its list. */
  ghost predicate WaitsOk(clients: Clients, blocking: Index) {
    forall c, key :: c in clients && key in clients[c].keys ==>
        key in blocking && Waiter(clients[c].keys[key], c) in blocking[key]
  }

  ghost predicate NodesBelow(blocking: Index, next: nat) {
    forall key :: key in blocking ==> forall i :: 0 <= i < |blocking[key]| ==> blocking[key][i].node < next
  }

  ghost predicate Indexed(clients: Clients, blocking: Index, next: nat) {
    ListsOk(clients, blocking) && WaitsOk(clients, blocking) && NodesBelow(blocking, next)
  }

  /** How many of the waiters want to be woken when the key goes away. */
  ghost function Flagged(clients: Clients, ws: seq<Waiter>): (n: nat)
    ensures n <= |ws|
  {
    if ws == [] then 0
    else Flagged(clients, ws[..|ws| - 1]) + if Wants(clients, ws[|ws| - 1].client) then 1 else 0
  }

  ghost predicate Wants(clients: Clients, c: nat) {
    c in clients && clients[c].onNoKey
  }

  ghost predicate NoKeyAt(clients: Clients, blocking: Index, nokey: map<Key, nat>, key: Key) {
    var n := if key in blocking then Flagged(clients, blocking[key]) else 0;
    if n == 0 then key !in nokey else key in nokey && nokey[key] == n
  }

  ghost predicate NoKeyExact(clients: Clients, blocking: Index, nokey: map<Key, nat>) {
    forall key :: NoKeyAt(clients, blocking, nokey, key)
  }

  // ----- Counts by type -----

  ghost function OfType(clients: Clients, t: BType): (s: set<nat>)
    ensures forall c :: c in s <==> c in clients && clients[c].btype == t
  {
    set c | c in clients && clients[c].btype == t
  }

  ghost predicate CountsExact(clients: Clients, byType: map<BType, nat>) {
    forall t :: t != NotBlocked ==> t in byType && byType[t] == |OfType(clients, t)|
  }

  /** blocked_clients counts the blocked clients that do not belong to a module. */
  ghost function Stopped(clients: Clients): (s: set<nat>)
    ensures forall c :: c in s <==> c in clients && clients[c].btype != NotBlocked && !clients[c].isModule
  {
    set c | c in clients && clients[c].btype != NotBlocked && !clients[c].isModule
  }

  ghost predicate TotalExact(clients: Clients, total: nat) {
    total == |Stopped(clients)|
  }

  predicate OnKeys(t: BType) {
    t in {List, Zset, Stream, Module}
  }

  /** Only clients blocked on keys have keys, and only blocked clients the flag. */
  ghost predicate KeysOk(clients: Clients) {
    forall c :: c in clients ==> (clients[c].keys != map[] ==> OnKeys(clients[c].btype)) && (clients[c].onNoKey ==>
        OnKeys(clients[c].btype))
  }

  // ----- Lists -----

  lemma {:induction false} FlaggedSame(clients: Clients, clients': Clients, ws: seq<Waiter>)
    requires forall i :: 0 <= i < |ws| ==> Wants(clients, ws[i].client) == Wants(clients', ws[i].client)
    ensures Flagged(clients, ws) == Flagged(clients', ws)
  {
    if ws != [] {
      FlaggedSame(clients, clients', ws[..|ws| - 1]);
    }
  }

  lemma {:induction false} FlaggedSplit(clients: Clients, a: seq<Waiter>, b: seq<Waiter>)
    ensures Flagged(clients, a + b) == Flagged(clients, a) + Flagged(clients, b)
  {
    if b == [] {
      assert a + b == a;
    } else {
      FlaggedSplit(clients, a, b[..|b| - 1]);
      assert (a + b)[..|a + b| - 1] == a + b[..|b| - 1];
    }
  }

  /** The list without the node at a position. */
  function Unlinked(ws: seq<Waiter>, i: nat): (rest: seq<Waiter>)
    requires i < |ws|
  {
    ws[..i] + ws[i + 1..]
  }

  lemma UnlinkFlagged(clients: Clients, ws: seq<Waiter>, i: nat)
    requires i < |ws|
    ensures Flagged(clients, ws) == Flagged(clients, Unlinked(ws, i)) + if Wants(clients, ws[i].client) then 1 else 0
  {
    FlaggedSplit(clients, ws[..i], ws[i + 1..]);
    FlaggedSplit(clients, ws[..i + 1], ws[i + 1..]);
    assert ws == ws[..i + 1] + ws[i + 1..] && ws[..i + 1][..i] == ws[..i];
  }

  /** listUnlinkNode: the node is found by its identity. */
  function Position(ws: seq<Waiter>, node: nat): (i: nat)
    ensures i <= |ws| && (i < |ws| ==> ws[i].node == node) && forall j :: 0 <= j < i ==> ws[j].node != node
  {
    if ws == [] || ws[0].node == node then 0 else 1 + Position(ws[1..], node)
  }

  function ListOf(blocking: Index, key: Key): (ws: seq<Waiter>) {
    if key in blocking then blocking[key] else []
  }

  /** A list without a client; the others keep their order. */
  function Drop(ws: seq<Waiter>, c: nat): (rest: seq<Waiter>) {
    if ws == [] then []
    else Drop(ws[..|ws| - 1], c) + if ws[|ws| - 1].client == c then [] else [ws[|ws| - 1]]
  }

  lemma DropLast(ws: seq<Waiter>, x: Waiter, c: nat)
    ensures Drop([], c) == [] && Drop(ws + [x], c) == Drop(ws, c) + if x.client == c then [] else [x]
  {
    assert (ws + [x])[..|ws|] == ws;
  }

  lemma Regroup(a: seq<Waiter>, b: seq<Waiter>, c: seq<Waiter>)
    ensures (a + b) + c == a + (b + c)
  {
  }

  lemma {:induction false} DropAbsent(ws: seq<Waiter>, c: nat)
    requires forall i :: 0 <= i < |ws| ==> ws[i].client != c
    ensures Drop(ws, c) == ws
  {
    if ws != [] {
      var front, x := ws[..|ws| - 1], ws[|ws| - 1];
      DropAbsent(front, c);
      assert ws == front + [x];
    }
  }

  lemma {:induction false} DropSplit(a: seq<Waiter>, b: seq<Waiter>, c: nat)
    ensures Drop(a + b, c) == Drop(a, c) + Drop(b, c)
  {
    hide Drop;
    if b == [] {
      assert a + b == a;
      DropLast(a, Waiter(0, 0), c);
    } else {
      var front, x := b[..|b| - 1], b[|b| - 1];
      DropSplit(a, front, c);
      Regroup(a, front, [x]);
      assert b == front + [x];
      DropLast(a + front, x, c);
      DropLast(front, x, c);
      Regroup(Drop(a, c), Drop(front, c), if x.client == c then [] else [x]);
    }
  }

  /** Unlinking a client's node drops the client. */
  lemma UnlinkDrops(ws: seq<Waiter>, i: nat)
    requires i < |ws| && Distinct(ws)
    ensures Unlinked(ws, i) == Drop(ws, ws[i].client)
  {
    hide Drop;
    var c, a, b := ws[i].client, ws[..i], ws[i + 1..];
    OthersDiffer(ws, i);
    DropAbsent(a, c);
    DropAbsent(b, c);
    DropLast(a, ws[i], c);
    DropSplit(a + [ws[i]], b, c);
    assert ws == (a + [ws[i]]) + b;
    assert a + [] == a;
  }

  lemma OthersDiffer(ws: seq<Waiter>, i: nat)
    requires i < |ws| && Distinct(ws)
    ensures var before := ws[..i]; forall j :: 0 <= j < |before| ==> before[j].client != ws[i].client
    ensures var after := ws[i + 1..]; forall j :: 0 <= j < |after| ==> after[j].client != ws[i].client
  {
  }

  // ----- Joining a list -----

  function Joined(clients: Clients, c: nat, key: Key, node: nat): (clients': Clients)
    requires c in clients
  {
    clients[c := clients[c].(keys := clients[c].keys[key := node])]
  }

  lemma JoinIndexed(clients: Clients, blocking: Index, next: nat, c: nat, key: Key)
    requires Indexed(clients, blocking, next) && c in clients && key !in clients[c].keys
    ensures Indexed(Joined(clients, c, key, next), blocking[key := ListOf(blocking, key) + [Waiter(next, c)]], next + 1)
  {
    var clients', ws := Joined(clients, c, key, next), ListOf(blocking, key) + [Waiter(next, c)];
    var blocking' := blocking[key := ws];
    forall k | k in blocking' ensures ListOk(clients', k, blocking'[k]) {
      if k in blocking {
        assert ListOk(clients, k, blocking[k]);
      }
    }
    forall d, k | d in clients' && k in clients'[d].keys ensures k in blocking' &&
        Waiter(clients'[d].keys[k], d) in blocking'[k] {
      if d == c && k == key {
        assert ws[|ws| - 1] == Waiter(next, c);
      } else {
        assert d in clients && k in clients[d].keys;
        var i :| 0 <= i < |blocking[k]| && blocking[k][i] == Waiter(clients[d].keys[k], d);
        assert blocking'[k][i] == blocking[k][i];
      }
    }
  }

  lemma FlaggedOne(clients: Clients, w: Waiter)
    ensures Flagged(clients, [w]) == if Wants(clients, w.client) then 1 else 0
  {
    assert [w][..0] == [];
  }

  function Raised(nokey: map<Key, nat>, key: Key, flagged: bool): (nokey': map<Key, nat>) {
    if flagged then nokey[key := (if key in nokey then nokey[key] else 0) + 1] else nokey
  }

  lemma JoinNoKeyAt(clients: Clients, blocking: Index, nokey: map<Key, nat>, c: nat, key: Key, node: nat, k: Key)
    requires NoKeyAt(clients, blocking, nokey, k) && c in clients
    ensures NoKeyAt(Joined(clients, c, key, node), blocking[key := ListOf(blocking, key) + [Waiter(node, c)]],
        Raised(nokey, key, clients[c].onNoKey), k)
  {
    hide Flagged;
    var clients' := Joined(clients, c, key, node);
    FlaggedSame(clients, clients', ListOf(blocking, k));
    if k == key {
      FlaggedSplit(clients', ListOf(blocking, key), [Waiter(node, c)]);
      FlaggedOne(clients', Waiter(node, c));
      FlaggedNone(clients);
    }
  }

  lemma FlaggedNone(clients: Clients)
    ensures Flagged(clients, []) == 0
  {
  }

  lemma JoinNoKey(clients: Clients, blocking: Index, nokey: map<Key, nat>, c: nat, key: Key, node: nat)
    requires NoKeyExact(clients, blocking, nokey) && c in clients
    ensures NoKeyExact(Joined(clients, c, key, node), blocking[key := ListOf(blocking, key) + [Waiter(node, c)]],
        Raised(nokey, key, clients[c].onNoKey))
  {
    hide NoKeyAt, Joined, Raised;
    var clients', nokey' := Joined(clients, c, key, node), Raised(nokey, key, clients[c].onNoKey);
    var blocking' := blocking[key := ListOf(blocking, key) + [Waiter(node, c)]];
    forall k ensures NoKeyAt(clients', blocking', nokey', k) {
      JoinNoKeyAt(clients, blocking, nokey, c, key, node, k);
    }
  }

  // ----- Leaving a list -----

  function Left(clients: Clients, c: nat, key: Key): (clients': Clients)
    requires c in clients
  {
    clients[c := clients[c].(keys := clients[c].keys - {key})]
  }

  function Shrunk(blocking: Index, key: Key, rest: seq<Waiter>): (blocking': Index) {
    if rest == [] then blocking - {key} else blocking[key := rest]
  }

  lemma WaiterAt(clients: Clients, blocking: Index, next: nat, c: nat, key: Key)
    requires Indexed(clients, blocking, next) && c in clients && key in clients[c].keys
    ensures key in blocking && Position(blocking[key], clients[c].keys[key]) < |blocking[key]|
    ensures blocking[key][Position(blocking[key], clients[c].keys[key])] == Waiter(clients[c].keys[key], c)
  {
    var ws := blocking[key];
    assert ListOk(clients, key, ws);
    var i :| 0 <= i < |ws| && ws[i] == Waiter(clients[c].keys[key], c);
    assert Position(ws, clients[c].keys[key]) == i;
  }

  lemma UnlinkedAt(ws: seq<Waiter>, i: nat)
    requires i < |ws|
    ensures forall j :: 0 <= j < |ws| - 1 ==> Unlinked(ws, i)[j] == ws[if j < i then j else j + 1]
    ensures |Unlinked(ws, i)| == |ws| - 1
  {
  }

  lemma LeaveLists(clients: Clients, blocking: Index, c: nat, key: Key, i: nat)
    requires ListsOk(clients, blocking) && key in blocking && i < |blocking[key]| && blocking[key][i].client == c && c in clients
    ensures ListsOk(Left(clients, c, key), Shrunk(blocking, key, Unlinked(blocking[key], i)))
  {
    hide Unlinked;
    var ws := blocking[key];
    var rest := Unlinked(ws, i);
    UnlinkedAt(ws, i);
    assert ListOk(clients, key, ws);
    var clients', blocking' := Left(clients, c, key), Shrunk(blocking, key, rest);
    forall k | k in blocking' ensures ListOk(clients', k, blocking'[k]) {
      assert ListOk(clients, k, blocking[k]);
    }
  }

  lemma LeaveWaits(clients: Clients, blocking: Index, c: nat, key: Key, i: nat)
    requires WaitsOk(clients, blocking) && key in blocking && i < |blocking[key]| && blocking[key][i].client == c && c in clients
    ensures WaitsOk(Left(clients, c, key), Shrunk(blocking, key, Unlinked(blocking[key], i)))
  {
    hide Unlinked;
    var ws := blocking[key];
    var rest := Unlinked(ws, i);
    UnlinkedAt(ws, i);
    var clients', blocking' := Left(clients, c, key), Shrunk(blocking, key, rest);
    forall d, k | d in clients' && k in clients'[d].keys ensures k in blocking' &&
        Waiter(clients'[d].keys[k], d) in blocking'[k] {
      assert k in clients[d].keys;
      if k == key {
        var j :| 0 <= j < |ws| && ws[j] == Waiter(clients[d].keys[k], d);
        assert rest[if j < i then j else j - 1] == ws[j];
      }
    }
  }

  lemma LeaveIndexed(clients: Clients, blocking: Index, next: nat, c: nat, key: Key)
    requires Indexed(clients, blocking, next) && c in clients && key in clients[c].keys
    ensures key in blocking && Indexed(Left(clients, c, key), Shrunk(blocking, key, Drop(blocking[key], c)), next)
    ensures Unlinked(blocking[key], Position(blocking[key], clients[c].keys[key])) == Drop(blocking[key], c)
  {
    hide ListOk, WaitsOk, Unlinked;
    WaiterAt(clients, blocking, next, c, key);
    var ws := blocking[key];
    var i := Position(ws, clients[c].keys[key]);
    DistinctList(clients, blocking, key);
    UnlinkDrops(ws, i);
    UnlinkedAt(ws, i);
    LeaveLists(clients, blocking, c, key, i);
    LeaveWaits(clients, blocking, c, key, i);
  }

  lemma DistinctList(clients: Clients, blocking: Index, key: Key)
    requires ListsOk(clients, blocking) && key in blocking
    ensures Distinct(blocking[key])
  {
    assert ListOk(clients, key, blocking[key]);
  }

  function Lowered(nokey: map<Key, nat>, key: Key, rest: seq<Waiter>, flagged: bool): (nokey': map<Key, nat>) {
    if rest == [] then nokey - {key}
    else if !flagged || key !in nokey then nokey
    else if nokey[key] <= 1 then nokey - {key}
    else nokey[key := nokey[key] - 1]
  }

  lemma LeaveNoKey(clients: Clients, blocking: Index, nokey: map<Key, nat>, c: nat, key: Key, i: nat)
    requires NoKeyExact(clients, blocking, nokey) && c in clients && key in blocking && i < |blocking[key]| &&
        blocking[key][i].client == c
    ensures var rest := Unlinked(blocking[key], i);
      NoKeyExact(Left(clients, c, key), Shrunk(blocking, key, rest), Lowered(nokey, key, rest, clients[c].onNoKey))
    ensures clients[c].onNoKey ==> key in nokey
  {
    var ws, rest := blocking[key], Unlinked(blocking[key], i);
    var clients', blocking', nokey' := Left(clients, c, key), Shrunk(blocking, key, rest),
      Lowered(nokey, key, rest, clients[c].onNoKey);
    UnlinkFlagged(clients, ws, i);
    assert NoKeyAt(clients, blocking, nokey, key);
    forall k ensures NoKeyAt(clients', blocking', nokey', k) {
      assert NoKeyAt(clients, blocking, nokey, k);
      if k in blocking' {
        FlaggedSame(clients, clients', blocking'[k]);
      }
    }
  }

  // ----- The server's tables -----

  /** Every signalled key is queued once. */
  ghost predicate QueuedOnce(ready: set<Key>, queue: seq<Key>) {
    NoDup(queue) && forall key :: key in ready <==> key in queue
  }

  class Tables {
    var clients: Clients
    var blocking: Index
    var nokey: map<Key, nat>
    var byType: map<BType, nat>
    var total: nat
    var nextNode: nat
    var ready: set<Key>
    var readyList: seq<Key>
    /** The ready keys that are being handled. */
    var handling: seq<Key>

    /** Nobody is blocked yet; some clients are a module's. */
    constructor (ids: set<nat>, modules: set<nat>)
      ensures Valid() && clients.Keys == ids && handling == readyList == []
      ensures forall c :: c in ids ==> clients[c] == Client(NotBlocked, map[], false, c in modules)
    {
      clients := map c | c in ids :: Client(NotBlocked, map[], false, c in modules);
      blocking, nokey := map[], map[];
      byType := map[List := 0, Zset := 0, Stream := 0, Module := 0, Wait := 0, WaitAof := 0, Postpone := 0, Shutdown := 0];
      total, nextNode, ready, readyList, handling := 0, 0, {}, [], [];
      new;
      NobodyCounted(clients, byType);
      assert Stopped(clients) == {};
      assert forall key :: NoKeyAt(clients, blocking, nokey, key);
    }

    ghost predicate Linked()
      reads this
    {
      Indexed(clients, blocking, nextNode) && NoKeyExact(clients, blocking, nokey)
    }

    ghost predicate Valid()
      reads this
    {
      && Linked() && CountsExact(clients, byType) && TotalExact(clients, total) && KeysOk(clients)
      && QueuedOnce(ready, handling + readyList)
    }

    /** blockClient. */
    method BlockClient(c: nat, btype: BType)
      requires c in clients && clients[c].btype == NotBlocked && btype != NotBlocked
      requires CountsExact(clients, byType) && TotalExact(clients, total)
      modifies this`clients, this`byType, this`total
      ensures clients == old(clients)[c := old(clients)[c].(btype := btype)]
      ensures CountsExact(clients, byType) && TotalExact(clients, total)
      ensures old(Valid()) ==> Valid()
    {
      hide Indexed, NoKeyExact, CountsExact, TotalExact;
      ghost var start := clients;
      CountUp(clients, byType, c, btype);
      TotalChange(clients, total, c, btype);
      if Valid() {
        IndexedSame(start, start[c := start[c].(btype := btype)], blocking, nextNode);
        NoKeySame(start, start[c := start[c].(btype := btype)], blocking, nokey);
      }
      total := if clients[c].isModule then total else total + 1;
      clients := clients[c := clients[c].(btype := btype)];
      byType := byType[btype := byType[btype] + 1];
    }

    /** The loop body of blockForKeys. */
    method Join(c: nat, key: Key, onNoKey: bool)
      requires c in clients && Indexed(clients, blocking, nextNode)
      requires NoKeyExact(clients[c := clients[c].(onNoKey := onNoKey)], blocking, nokey)
      modifies this`clients, this`blocking, this`nokey, this`nextNode
      ensures Indexed(clients, blocking, nextNode) && c in clients
      ensures NoKeyExact(clients[c := clients[c].(onNoKey := onNoKey)], blocking, nokey)
      ensures key in old(clients)[c].keys ==> clients == old(clients) && blocking == old(blocking)
      ensures key !in old(clients)[c].keys ==> clients == Joined(old(clients), c, key, old(nextNode))
      ensures key !in old(clients)[c].keys ==>
          blocking == old(blocking)[key := ListOf(old(blocking), key) + [Waiter(old(nextNode), c)]]
    {
      if key in clients[c].keys {
        return;
      }
      JoinIndexed(clients, blocking, nextNode, c, key);
      JoinNoKey(clients[c := clients[c].(onNoKey := onNoKey)], blocking, nokey, c, key, nextNode);
      assert Joined(clients, c, key, nextNode)[c := Joined(clients, c, key, nextNode)[c].(onNoKey := onNoKey)]
          == Joined(clients[c := clients[c].(onNoKey := onNoKey)], c, key, nextNode);
      var l := ListOf(blocking, key);
      blocking := blocking[key := l + [Waiter(nextNode, c)]];
      clients := Joined(clients, c, key, nextNode);
      nextNode := nextNode + 1;
      nokey := Raised(nokey, key, onNoKey);
    }

    /** The loop of blockForKeys. */
    method JoinAll(c: nat, keys: seq<Key>, onNoKey: bool)
      requires c in clients && Indexed(clients, blocking, nextNode) && clients[c].keys == map[]
      requires NoKeyExact(clients[c := clients[c].(onNoKey := onNoKey)], blocking, nokey)
      modifies this`clients, this`blocking, this`nokey, this`nextNode
      ensures Indexed(clients, blocking, nextNode) && c in clients
      ensures NoKeyExact(clients[c := clients[c].(onNoKey := onNoKey)], blocking, nokey)
      ensures clients == old(clients)[c := old(clients)[c].(keys := clients[c].keys)] &&
          forall key :: key in clients[c].keys <==> key in keys
      ensures Extended(old(blocking), blocking, c, clients[c].keys)
    {
      hide Indexed, NoKeyExact, Extended, ListOf;
      ExtendStart(blocking, c);
      for j := 0 to |keys|
        invariant Indexed(clients, blocking, nextNode) && c in clients
        invariant NoKeyExact(clients[c := clients[c].(onNoKey := onNoKey)], blocking, nokey)
        invariant clients == old(clients)[c := old(clients)[c].(keys := clients[c].keys)]
        invariant forall key :: key in clients[c].keys <==> key in keys[..j]
        invariant Extended(old(blocking), blocking, c, clients[c].keys)
      {
        assert keys[..j + 1] == keys[..j] + [keys[j]];
        ExtendStep(old(blocking), blocking, c, clients[c].keys, keys[j], nextNode);
        Join(c, keys[j], onNoKey);
      }
      assert keys[..|keys|] == keys;
    }

    /** blockForKeys: the client joins the end of the list of every key it names. */
    method BlockForKeys(c: nat, btype: BType, keys: seq<Key>, onNoKey: bool)
      requires Valid() && c in clients && clients[c].btype == NotBlocked && OnKeys(btype)
      modifies this`clients, this`blocking, this`nokey, this`nextNode, this`byType, this`total
      ensures Valid() && OnlyChanged(old(clients), clients, c) && clients[c].isModule == old(clients)[c].isModule
      ensures clients[c].btype == btype && clients[c].onNoKey == onNoKey && forall key :: key in clients[c].keys <==> key in keys
      ensures Extended(old(blocking), blocking, c, clients[c].keys)
    {
      hide Indexed, NoKeyExact, CountsExact, TotalExact, Extended, KeysOk, OnlyChanged, QueuedOnce;
      ghost var start := clients;
      Idle(clients, c);
      FlagIdle(clients, blocking, nokey, nextNode, c, onNoKey);
      JoinAll(c, keys, onNoKey);
      ghost var held := clients[c].keys;
      FinishBlocking(start, clients, c, held, onNoKey, btype, blocking, nokey, nextNode, byType);
      TotalSame(start, clients[c := clients[c].(onNoKey := onNoKey)], total);
      clients := clients[c := clients[c].(onNoKey := onNoKey)];
      BlockClient(c, btype);
      assert clients == start[c := Client(btype, held, onNoKey, start[c].isModule)];
    }

    /**
      releaseBlockedEntry. The client's own table may still hold keys that were released
      before; the view is the table without them.
    */
    method Release(c: nat, key: Key, removeKey: bool, ghost view: Clients)
      requires c in view && c in clients && view == clients[c := clients[c].(keys := view[c].keys)]
      requires key in view[c].keys && key in clients[c].keys && clients[c].keys[key] == view[c].keys[key]
      requires Indexed(view, blocking, nextNode) && NoKeyExact(view, blocking, nokey)
      modifies this`clients, this`blocking, this`nokey
      ensures Indexed(Left(view, c, key), blocking, nextNode) && NoKeyExact(Left(view, c, key), blocking, nokey)
      ensures clients == if removeKey then Left(old(clients), c, key) else old(clients)
      ensures Reduced(old(blocking), blocking, c, {key})
    {
      hide Indexed, NoKeyExact, Reduced, Drop, Unlinked;
      WaiterAt(view, blocking, nextNode, c, key);
      LeaveIndexed(view, blocking, nextNode, c, key);
      var l := blocking[key];
      var i := Position(l, clients[c].keys[key]);
      LeaveNoKey(view, blocking, nokey, c, key, i);
      ReduceOne(blocking, c, key);
      var rest := Unlinked(l, i);
      if |rest| == 0 {
        blocking := blocking - {key};
        nokey := nokey - {key};
      } else {
        blocking := blocking[key := rest];
        if clients[c].onNoKey {
          assert key in nokey;
          if nokey[key] <= 1 {
            nokey := nokey - {key};
          } else {
            nokey := nokey[key := nokey[key] - 1];
          }
        }
      }
      if removeKey {
        clients := Left(clients, c, key);
      }
    }

    /** unblockClientWaitingData: the client leaves every list. */
    method UnblockWaitingData(c: nat)
      requires c in clients && Linked()
      modifies this`clients, this`blocking, this`nokey
      ensures Linked() && c in clients && clients == old(clients)[c := old(clients)[c].(keys := map[])]
      ensures Reduced(old(blocking), blocking, c, old(clients)[c].keys.Keys)
    {
      hide Indexed, NoKeyExact, Reduced, View, Left;
      ghost var view := clients;
      var todo := clients[c].keys.Keys;
      ghost var done: set<Key> := {};
      ReduceNone(blocking, c);
      ViewStart(clients, c);
      while todo != {}
        invariant clients == old(clients) && View(view, clients, c, todo)
        invariant done + todo == clients[c].keys.Keys && done !! todo
        invariant Indexed(view, blocking, nextNode) && NoKeyExact(view, blocking, nokey)
        invariant Reduced(old(blocking), blocking, c, done)
        decreases |todo|
      {
        var key :| key in todo;
        ViewStep(view, clients, c, todo, key);
        ghost var before := blocking;
        Release(c, key, false, view);
        ReduceMore(old(blocking), before, blocking, c, done, key);
        view := Left(view, c, key);
        todo, done := todo - {key}, done + {key};
      }
      assert done == clients[c].keys.Keys;
      ViewEnd(view, clients, c);
      clients := clients[c := clients[c].(keys := map[])];
    }

    /** unblockClient. */
    method UnblockClient(c: nat)
      requires Valid() && c in clients && clients[c].btype != NotBlocked
      modifies this`clients, this`blocking, this`nokey, this`byType, this`total
      ensures Valid() && OnlyChanged(old(clients), clients, c)
      ensures clients[c] == Client(NotBlocked, map[], false, old(clients)[c].isModule)
      ensures forall key :: ListOf(blocking, key) == Drop(ListOf(old(blocking), key), c)
    {
      hide Indexed, NoKeyExact, CountsExact, TotalExact, KeysOk, OnlyChanged, Reduced, Drop, QueuedOnce;
      ghost var start := clients;
      if OnKeys(clients[c].btype) {
        UnblockWaitingData(c);
      } else {
        Idle(clients, c);
        ReduceNone(blocking, c);
        assert start[c].keys.Keys == {};
        assert clients == start[c := start[c].(keys := map[])];
      }
      ReducedAll(start, old(blocking), blocking, nextNode, c);
      FinishUnblocking(start, clients, c, blocking, nokey, nextNode, byType);
      var btype := clients[c].btype;
      TotalFreed(start, total, c);
      total := if clients[c].isModule then total else total - 1;
      byType := byType[btype := byType[btype] - 1];
      clients := clients[c := clients[c].(btype := NotBlocked, onNoKey := false)];
      assert clients == start[c := Client(NotBlocked, map[], false, start[c].isModule)];
    }

    /** unblockClientOnKey, up to the reprocessing of the command. */
    method UnblockOnKey(c: nat, key: Key)
      requires Valid() && c in clients && key in clients[c].keys
      modifies this`clients, this`blocking, this`nokey, this`byType, this`total
      ensures Valid() && OnlyChanged(old(clients), clients, c)
      ensures clients[c] == Client(NotBlocked, map[], false, old(clients)[c].isModule)
      ensures forall k :: ListOf(blocking, k) == Drop(ListOf(old(blocking), k), c)
    {
      hide Indexed, NoKeyExact, CountsExact, TotalExact, KeysOk, OnlyChanged, Reduced, Drop, QueuedOnce;
      ghost var start := clients;
      HoldersBlocked(clients, c, key);
      Release(c, key, true, clients);
      LeftOk(start, c, key, byType);
      TotalSame(start, Left(start, c, key), total);
      ghost var between := blocking;
      UnblockClient(c);
      DropAfterReduce(old(blocking), between, c, key);
      OnlyChangedTwice(start, Left(start, c, key), clients, c);
    }

    /** signalKeyAsReadyLogic: a key is queued when somebody may be waiting for it, and only once; no waiter is missed. */
    method Signal(key: Key, btype: BType, deleted: bool)
      requires Valid()
      modifies this`ready, this`readyList
      ensures Valid()
      ensures var queued := btype != NotBlocked && (byType[btype] > 0 || byType[Module] > 0)
          && (if deleted then key in nokey else key in blocking) && key !in old(ready);
        ready == (if queued then old(ready) + {key} else old(ready)) &&
          readyList == (if queued then old(readyList) + [key] else old(readyList))
      ensures btype != NotBlocked && Awaited(clients, blocking, key, btype, deleted) ==> key in ready
    {
      hide Indexed, NoKeyExact, KeysOk, OfType, TotalExact, Awaited;
      if btype == NotBlocked {
        return;
      }
      AwaitedIsSeen(clients, blocking, nokey, nextNode, byType, key, btype, deleted);
      if byType[btype] == 0 && byType[Module] == 0 {
        return;
      }
      if deleted {
        if key !in nokey {
          return;
        }
      } else if key !in blocking {
        return;
      }
      if key in ready {
        return;
      }
      QueueMore(ready, handling, readyList, key);
      ready := ready + {key};
      readyList := readyList + [key];
    }
  }

  ghost predicate OnlyChanged(before: Clients, after: Clients, c: nat) {
    before.Keys == after.Keys && c in after && forall d :: d in before && d != c ==> after[d] == before[d]
  }

  lemma Idle(clients: Clients, c: nat)
    requires KeysOk(clients) && c in clients && !OnKeys(clients[c].btype)
    ensures clients[c].keys == map[] && !clients[c].onNoKey
  {
  }

  lemma FinishBlocking(start: Clients, joined: Clients, c: nat, held: map<Key, nat>, flag: bool, btype: BType,
                       blocking: Index, nokey: map<Key, nat>, next: nat, byType: map<BType, nat>)
    requires c in start && joined == start[c := start[c].(keys := held)] && Indexed(joined, blocking, next) && OnKeys(btype)
    requires NoKeyExact(joined[c := joined[c].(onNoKey := flag)], blocking, nokey) && CountsExact(start, byType) && KeysOk(start)
    ensures CountsExact(joined[c := joined[c].(onNoKey := flag)], byType)
    ensures var after := start[c := Client(btype, held, flag, start[c].isModule)];
      Indexed(after, blocking, next) && NoKeyExact(after, blocking, nokey) && KeysOk(after) && OnlyChanged(start, after, c)
  {
    hide Indexed, NoKeyExact, CountsExact;
    var flagged := joined[c := joined[c].(onNoKey := flag)];
    var after := start[c := Client(btype, held, flag, start[c].isModule)];
    CountsSame(start, flagged, byType);
    IndexedSame(joined, after, blocking, next);
    NoKeySame(flagged, after, blocking, nokey);
  }

  /** A client has been added at the end of the lists of its keys. */
  ghost predicate Extended(before: Index, after: Index, c: nat, keys: map<Key, nat>) {
    forall key :: ListOf(after, key) == ListOf(before, key) + if key in keys then [Waiter(keys[key], c)] else []
  }

  lemma ExtendStart(blocking: Index, c: nat)
    ensures Extended(blocking, blocking, c, map[])
  {
    assert forall key :: ListOf(blocking, key) + [] == ListOf(blocking, key);
  }

  lemma ExtendStep(before: Index, blocking: Index, c: nat, keys: map<Key, nat>, key: Key, node: nat)
    requires Extended(before, blocking, c, keys)
    ensures key !in keys ==> Extended(before, blocking[key := ListOf(blocking, key) + [Waiter(node, c)]], c, keys[key := node])
  {
    if key !in keys {
      var after := blocking[key := ListOf(blocking, key) + [Waiter(node, c)]];
      forall k ensures ListOf(after, k) == ListOf(before, k) + if k in keys[key := node]
          then [Waiter(keys[key := node][k], c)] else [] {
        if k == key {
          assert ListOf(before, key) + [] == ListOf(before, key);
        }
      }
    }
  }

  lemma NobodyCounted(clients: Clients, byType: map<BType, nat>)
    requires forall c :: c in clients ==> clients[c].btype == NotBlocked
    requires forall t :: t != NotBlocked ==> t in byType && byType[t] == 0
    ensures CountsExact(clients, byType)
  {
    forall t | t != NotBlocked ensures |OfType(clients, t)| == 0 {
      assert OfType(clients, t) == {};
    }
  }

  lemma SizeBut(s: set<nat>, s': set<nat>, c: nat)
    requires s - {c} == s' - {c}
    ensures |s'| == |s| + (if c in s' then 1 else 0) - (if c in s then 1 else 0)
  {
    var rest := s - {c};
    assert s == if c in s then rest + {c} else rest;
    assert s' == if c in s' then rest + {c} else rest;
  }

  lemma OfTypeChange(clients: Clients, c: nat, btype: BType, t: BType)
    requires c in clients
    ensures var clients' := clients[c := clients[c].(btype := btype)];
      |OfType(clients', t)| == |OfType(clients, t)| + (if t == btype then 1 else 0) - (if t == clients[c].btype then 1 else 0)
  {
    hide OfType;
    var clients' := clients[c := clients[c].(btype := btype)];
    var s, s' := OfType(clients, t), OfType(clients', t);
    forall d ensures d in s - {c} <==> d in s' - {c} {
      if d != c {
        assert d in clients <==> d in clients';
      }
    }
    SizeBut(s, s', c);
  }

  lemma CountUp(clients: Clients, byType: map<BType, nat>, c: nat, btype: BType)
    requires CountsExact(clients, byType) && c in clients && clients[c].btype == NotBlocked && btype != NotBlocked
    ensures btype in byType && CountsExact(clients[c := clients[c].(btype := btype)], byType[btype := byType[btype] + 1])
  {
    hide OfType;
    assert btype in byType && byType[btype] == |OfType(clients, btype)|;
    var clients', byType' := clients[c := clients[c].(btype := btype)], byType[btype := byType[btype] + 1];
    forall t | t != NotBlocked ensures t in byType' && byType'[t] == |OfType(clients', t)| {
      assert t in byType && byType[t] == |OfType(clients, t)|;
      OfTypeChange(clients, c, btype, t);
    }
  }

  lemma CountDown(clients: Clients, byType: map<BType, nat>, c: nat)
    requires CountsExact(clients, byType) && c in clients && clients[c].btype != NotBlocked
    ensures clients[c].btype in byType && byType[clients[c].btype] > 0
    ensures CountsExact(clients[c := clients[c].(btype := NotBlocked)], byType[clients[c].btype := byType[clients[c].btype] - 1])
  {
    hide OfType;
    var b := clients[c].btype;
    var clients' := clients[c := clients[c].(btype := NotBlocked)];
    assert b in byType && byType[b] == |OfType(clients, b)|;
    OfTypeChange(clients, c, NotBlocked, b);
    var byType' := byType[b := byType[b] - 1];
    forall t | t != NotBlocked ensures t in byType' && byType'[t] == |OfType(clients', t)| {
      assert t in byType && byType[t] == |OfType(clients, t)|;
      OfTypeChange(clients, c, NotBlocked, t);
    }
  }

  lemma TotalChange(clients: Clients, total: nat, c: nat, btype: BType)
    requires TotalExact(clients, total) && c in clients && (clients[c].btype == NotBlocked) != (btype == NotBlocked)
    ensures clients[c].isModule || btype != NotBlocked || total > 0
    ensures TotalExact(clients[c := clients[c].(btype := btype)],
      if clients[c].isModule then total else if btype == NotBlocked then total - 1 else total + 1)
  {
    hide Stopped;
    var clients' := clients[c := clients[c].(btype := btype)];
    var s, s' := Stopped(clients), Stopped(clients');
    forall d ensures d in s - {c} <==> d in s' - {c} {
      if d != c {
        assert d in clients <==> d in clients';
      }
    }
    SizeBut(s, s', c);
  }

  lemma TotalFreed(clients: Clients, total: nat, c: nat)
    requires TotalExact(clients, total) && c in clients && clients[c].btype != NotBlocked
    ensures clients[c].isModule || total > 0
    ensures TotalExact(clients[c := Client(NotBlocked, map[], false, clients[c].isModule)], if clients[c].isModule
        then total else total - 1)
  {
    hide TotalExact;
    TotalChange(clients, total, c, NotBlocked);
    TotalSame(clients[c := clients[c].(btype := NotBlocked)], clients[c := Client(NotBlocked, map[], false, clients[c].isModule)],
      if clients[c].isModule then total else total - 1);
  }

  lemma TotalSame(clients: Clients, clients': Clients, total: nat)
    requires TotalExact(clients, total) && clients.Keys == clients'.Keys
    requires forall c :: c in clients ==> clients'[c].btype == clients[c].btype && clients'[c].isModule == clients[c].isModule
    ensures TotalExact(clients', total)
  {
    assert Stopped(clients) == Stopped(clients');
  }

  /** The counts depend on the types alone. */
  lemma CountsSame(clients: Clients, clients': Clients, byType: map<BType, nat>)
    requires CountsExact(clients, byType) && clients.Keys == clients'.Keys && forall c :: c in clients ==>
        clients'[c].btype == clients[c].btype
    ensures CountsExact(clients', byType)
  {
    forall t | t != NotBlocked ensures t in byType && byType[t] == |OfType(clients', t)| {
      assert OfType(clients', t) == OfType(clients, t);
    }
  }

  /** The index depends on the keys alone. */
  lemma IndexedSame(clients: Clients, clients': Clients, blocking: Index, next: nat)
    requires Indexed(clients, blocking, next) && clients.Keys == clients'.Keys && forall c :: c in clients ==>
        clients'[c].keys == clients[c].keys
    ensures Indexed(clients', blocking, next)
  {
    forall k | k in blocking ensures ListOk(clients', k, blocking[k]) {
      assert ListOk(clients, k, blocking[k]);
    }
  }

  /** A client that waits for nothing is in no list, so that its flag does not count. */
  lemma FlagIdle(clients: Clients, blocking: Index, nokey: map<Key, nat>, next: nat, c: nat, flag: bool)
    requires Indexed(clients, blocking, next) && NoKeyExact(clients, blocking, nokey) && c in clients && clients[c].keys == map[]
    ensures NoKeyExact(clients[c := clients[c].(onNoKey := flag)], blocking, nokey)
  {
    var clients' := clients[c := clients[c].(onNoKey := flag)];
    forall k ensures NoKeyAt(clients', blocking, nokey, k) {
      assert NoKeyAt(clients, blocking, nokey, k);
      if k in blocking {
        assert ListOk(clients, k, blocking[k]);
        FlaggedSame(clients, clients', blocking[k]);
      }
    }
  }

  lemma NoKeySame(clients: Clients, clients': Clients, blocking: Index, nokey: map<Key, nat>)
    requires NoKeyExact(clients, blocking, nokey) && clients.Keys == clients'.Keys && forall c :: c in clients ==>
        clients'[c].onNoKey == clients[c].onNoKey
    ensures NoKeyExact(clients', blocking, nokey)
  {
    forall k ensures NoKeyAt(clients', blocking, nokey, k) {
      assert NoKeyAt(clients, blocking, nokey, k);
      if k in blocking {
        FlaggedSame(clients, clients', blocking[k]);
      }
    }
  }

  /** The clients, but with only the keys of c that are still to be released. */
  ghost predicate View(view: Clients, clients: Clients, c: nat, todo: set<Key>) {
    && c in clients && c in view && view == clients[c := clients[c].(keys := view[c].keys)]
    && view[c].keys.Keys == todo <= clients[c].keys.Keys && forall key :: key in todo ==>
        view[c].keys[key] == clients[c].keys[key]
  }

  lemma ViewStart(clients: Clients, c: nat)
    requires c in clients
    ensures View(clients, clients, c, clients[c].keys.Keys)
  {
    assert clients == clients[c := clients[c].(keys := clients[c].keys)];
  }

  lemma ViewStep(view: Clients, clients: Clients, c: nat, todo: set<Key>, key: Key)
    requires View(view, clients, c, todo) && key in todo
    ensures c in view && view == clients[c := clients[c].(keys := view[c].keys)]
    ensures key in view[c].keys && key in clients[c].keys && clients[c].keys[key] == view[c].keys[key]
    ensures View(Left(view, c, key), clients, c, todo - {key})
  {
  }

  lemma ViewEnd(view: Clients, clients: Clients, c: nat)
    requires View(view, clients, c, {})
    ensures view == clients[c := clients[c].(keys := map[])]
  {
    assert view[c].keys == map[];
  }

  // ----- Lists that lost a client -----

  ghost predicate Reduced(before: Index, after: Index, c: nat, keys: set<Key>) {
    forall key :: ListOf(after, key) == if key in keys then Drop(ListOf(before, key), c) else ListOf(before, key)
  }

  lemma ReduceNone(blocking: Index, c: nat)
    ensures Reduced(blocking, blocking, c, {})
  {
  }

  lemma ReduceOne(blocking: Index, c: nat, key: Key)
    requires key in blocking
    ensures Reduced(blocking, Shrunk(blocking, key, Drop(blocking[key], c)), c, {key})
  {
  }

  lemma ReduceMore(before: Index, between: Index, after: Index, c: nat, keys: set<Key>, key: Key)
    requires Reduced(before, between, c, keys) && Reduced(between, after, c, {key}) && key !in keys
    ensures Reduced(before, after, c, keys + {key})
  {
  }

  /** The keys of a client are all the lists it is in. */
  lemma ReducedAll(clients: Clients, before: Index, after: Index, next: nat, c: nat)
    requires c in clients && Indexed(clients, before, next) && Reduced(before, after, c, clients[c].keys.Keys)
    ensures forall key :: ListOf(after, key) == Drop(ListOf(before, key), c)
  {
    forall key ensures ListOf(after, key) == Drop(ListOf(before, key), c) {
      if key !in clients[c].keys {
        if key in before {
          assert ListOk(clients, key, before[key]);
        }
        DropAbsent(ListOf(before, key), c);
      }
    }
  }

  lemma {:induction false} DropTwice(ws: seq<Waiter>, c: nat)
    ensures Drop(Drop(ws, c), c) == Drop(ws, c)
  {
    hide Drop;
    if ws == [] {
      DropLast([], Waiter(0, 0), c);
    } else {
      var front, x := ws[..|ws| - 1], ws[|ws| - 1];
      assert ws == front + [x];
      DropTwice(front, c);
      DropLast(front, x, c);
      if x.client == c {
        assert Drop(front, c) + [] == Drop(front, c);
      } else {
        DropLast(Drop(front, c), x, c);
      }
    }
  }

  lemma DropAfterReduce(before: Index, between: Index, c: nat, key: Key)
    requires Reduced(before, between, c, {key})
    ensures forall k :: Drop(ListOf(between, k), c) == Drop(ListOf(before, k), c)
  {
    hide Drop;
    forall k ensures Drop(ListOf(between, k), c) == Drop(ListOf(before, k), c) {
      DropTwice(ListOf(before, k), c);
    }
  }

  lemma FinishUnblocking(start: Clients, clients: Clients, c: nat, blocking: Index, nokey: map<Key, nat>, next: nat,
      byType: map<BType, nat>)
    requires c in start && clients == start[c := start[c].(keys := map[])] && Indexed(clients, blocking, next) &&
        NoKeyExact(clients, blocking, nokey)
    requires CountsExact(start, byType) && KeysOk(start) && start[c].btype != NotBlocked
    ensures start[c].btype in byType && byType[start[c].btype] > 0
    ensures var after := start[c := Client(NotBlocked, map[], false, start[c].isModule)];
      && Indexed(after, blocking, next) && NoKeyExact(after, blocking, nokey) && KeysOk(after) && OnlyChanged(start, after, c)
      && CountsExact(after, byType[start[c].btype := byType[start[c].btype] - 1])
  {
    hide Indexed, NoKeyExact, CountsExact;
    var after := start[c := Client(NotBlocked, map[], false, start[c].isModule)];
    IndexedSame(clients, after, blocking, next);
    FlagIdle(clients, blocking, nokey, next, c, false);
    NoKeySame(clients[c := clients[c].(onNoKey := false)], after, blocking, nokey);
    CountDown(start, byType, c);
    CountsSame(start[c := start[c].(btype := NotBlocked)], after, byType[start[c].btype := byType[start[c].btype] - 1]);
  }

  lemma HoldersBlocked(clients: Clients, c: nat, key: Key)
    requires KeysOk(clients) && c in clients && key in clients[c].keys
    ensures OnKeys(clients[c].btype) && clients[c].btype != NotBlocked
    ensures clients == clients[c := clients[c].(keys := clients[c].keys)]
  {
    assert clients[c].keys != map[];
  }

  lemma LeftOk(clients: Clients, c: nat, key: Key, byType: map<BType, nat>)
    requires c in clients && KeysOk(clients) && CountsExact(clients, byType) && OnKeys(clients[c].btype)
    ensures KeysOk(Left(clients, c, key)) && CountsExact(Left(clients, c, key), byType) &&
        OnlyChanged(clients, Left(clients, c, key), c)
    ensures Left(clients, c, key)[c].btype == clients[c].btype && Left(clients, c, key)[c].isModule == clients[c].isModule
  {
    hide CountsExact;
    CountsSame(clients, Left(clients, c, key), byType);
  }

  lemma OnlyChangedTwice(a: Clients, b: Clients, d: Clients, c: nat)
    requires OnlyChanged(a, b, c) && OnlyChanged(b, d, c)
    ensures OnlyChanged(a, d, c)
  {
  }

  // ----- The queue of ready keys -----

  lemma QueueMore(ready: set<Key>, a: seq<Key>, b: seq<Key>, key: Key)
    requires QueuedOnce(ready, a + b) && key !in ready
    ensures QueuedOnce(ready + {key}, a + (b + [key]))
  {
    assert a + (b + [key]) == (a + b) + [key];
  }

  lemma HeadOff(s: seq<Key>, t: seq<Key>, x: Key)
    requires s == [x] + t && NoDup(s)
    ensures NoDup(t) && x !in t && forall k :: k in s <==> k == x || k in t
  {
    assert forall i :: 0 <= i < |t| ==> t[i] == s[i + 1];
    forall i | 0 <= i < |t| ensures t[i] != x {
      assert s[0] != s[i + 1];
    }
  }

  lemma QueueNext(ready: set<Key>, a: seq<Key>, b: seq<Key>)
    requires a != [] && QueuedOnce(ready, a + b)
    ensures QueuedOnce(ready - {a[0]}, a[1..] + b)
  {
    hide NoDup;
    assert a + b == [a[0]] + (a[1..] + b);
    HeadOff(a + b, a[1..] + b, a[0]);
  }

  lemma NobodyWaits(clients: Clients, blocking: Index, next: nat, key: Key)
    requires Indexed(clients, blocking, next) && key !in blocking
    ensures forall c :: c in clients ==> key !in clients[c].keys
  {
  }

  lemma ListCovers(clients: Clients, blocking: Index, next: nat, key: Key)
    requires Indexed(clients, blocking, next) && key in blocking
    ensures var ws := blocking[key];
      && ws != [] && Distinct(ws) && (forall i :: 0 <= i < |ws| ==> ws[i].client in clients && key in clients[ws[i].client].keys)
      && (forall c :: c in clients && key in clients[c].keys ==> exists i :: 0 <= i < |ws| && ws[i].client == c)
  {
    var ws := blocking[key];
    assert ListOk(clients, key, ws);
    forall c | c in clients && key in clients[c].keys ensures exists i :: 0 <= i < |ws| && ws[i].client == c {
      var i :| 0 <= i < |ws| && ws[i] == Waiter(clients[c].keys[key], c);
    }
  }

  /** A key that somebody wants to be told about when it goes away is one that somebody waits for. */
  lemma NoKeyIsBlocking(clients: Clients, blocking: Index, nokey: map<Key, nat>, key: Key)
    requires NoKeyExact(clients, blocking, nokey) && key in nokey
    ensures key in blocking && exists i :: 0 <= i < |blocking[key]| && Wants(clients, blocking[key][i].client)
  {
    assert NoKeyAt(clients, blocking, nokey, key);
    SomeoneWants(clients, ListOf(blocking, key));
  }

  lemma {:induction false} SomeoneWants(clients: Clients, ws: seq<Waiter>)
    ensures Flagged(clients, ws) > 0 ==> exists i :: 0 <= i < |ws| && Wants(clients, ws[i].client)
  {
    if ws != [] {
      var front := ws[..|ws| - 1];
      SomeoneWants(clients, front);
      if i :| 0 <= i < |front| && Wants(clients, front[i].client) {
        assert Wants(clients, ws[i].client);
      }
    }
  }

  /** Somebody waits for a key of a type, or through a module; after a deletion, somebody who wants to know. */
  ghost predicate Awaited(clients: Clients, blocking: Index, key: Key, btype: BType, deleted: bool) {
    exists i :: 0 <= i < |ListOf(blocking, key)| && AwaitedBy(clients, ListOf(blocking, key)[i].client, btype, deleted)
  }

  ghost predicate AwaitedBy(clients: Clients, c: nat, btype: BType, deleted: bool) {
    c in clients && (clients[c].btype == btype || clients[c].btype == Module) && (deleted ==> clients[c].onNoKey)
  }

  /** Then no early return is taken. */
  lemma AwaitedIsSeen(clients: Clients, blocking: Index, nokey: map<Key, nat>, next: nat, byType: map<BType, nat>,
      key: Key, btype: BType, deleted: bool)
    requires Indexed(clients, blocking, next) && NoKeyExact(clients, blocking, nokey) &&
        CountsExact(clients, byType) && btype != NotBlocked
    ensures btype in byType && Module in byType
    ensures Awaited(clients, blocking, key, btype, deleted) ==>
      (byType[btype] > 0 || byType[Module] > 0) && key in blocking && (deleted ==> key in nokey)
  {
    if Awaited(clients, blocking, key, btype, deleted) {
      var ws := ListOf(blocking, key);
      var i :| 0 <= i < |ws| && AwaitedBy(clients, ws[i].client, btype, deleted);
      assert ws[i].client in OfType(clients, clients[ws[i].client].btype);
      if deleted {
        FlaggedHas(clients, ws, i);
        assert NoKeyAt(clients, blocking, nokey, key);
      }
    }
  }

  lemma FlaggedHas(clients: Clients, ws: seq<Waiter>, i: nat)
    requires i < |ws| && Wants(clients, ws[i].client)
    ensures Flagged(clients, ws) > 0
  {
    UnlinkFlagged(clients, ws, i);
  }

  /** When the counts are zero, the early return of a signal misses nobody of that type. */
  lemma NobodyMissed(clients: Clients, blocking: Index, byType: map<BType, nat>, next: nat, key: Key, btype: BType)
    requires Indexed(clients, blocking, next) && CountsExact(clients, byType) && btype != NotBlocked && byType[btype] == 0
    ensures forall i :: 0 <= i < |ListOf(blocking, key)| ==>
      ListOf(blocking, key)[i].client in clients && clients[ListOf(blocking, key)[i].client].btype != btype
  {
    if key in blocking {
      assert ListOk(clients, key, blocking[key]);
    }
    assert OfType(clients, btype) == {};
  }
}
