/**
  Serving the clients of ready keys. A key's list is walked while it changes: a served
  client leaves it, and a client whose command blocks again comes back at its end.
*/
module BlockedReady {
  import opened Common
  import opened Blocked

  /** What may be blocked on keys again by a command. */
  type KeyType = t: BType | OnKeys(t) witness List

  /** How a command ends that is run again: done, or blocked once more. */
  datatype Ending = Finish | Again(btype: KeyType, keys: seq<Key>, onNoKey: bool)

  datatype Event = Event(key: Key, btype: BType, deleted: bool)

  /**
    One turn: the type of the object that is found under the key, if any, the keys that are
    signalled by what runs, and how it ends.
  */
  datatype Round = Round(found: seq<BType>, signals: seq<Event>, ending: Ending)

  /** Where a client stands, apart from its places in the lists. */
  datatype Stand = Stand(btype: BType, keys: set<Key>, onNoKey: bool, isModule: bool)

  function StandOf(c: Client): (s: Stand) {
    Stand(c.btype, c.keys.Keys, c.onNoKey, c.isModule)
  }

  /** Whether a client gets to run: the object has its type, or it is a module's, or it wants to know of any change. */
  predicate Eligible(btype: BType, onNoKey: bool, r: Round) {
    (r.found != [] && (btype == r.found[0] || btype == Module)) || onNoKey
  }

  /** Whether a client runs again now; a module's client is only told, and unblocked later. */
  predicate Runs(btype: BType, onNoKey: bool, r: Round) {
    Eligible(btype, onNoKey, r) && btype != Module
  }

  /** What a turn makes of a client. */
  function Turn(s: Stand, key: Key, r: Round): (s': Stand) {
    if key !in s.keys || !Runs(s.btype, s.onNoKey, r) then s
    else match r.ending
      case Finish => Stand(NotBlocked, {}, false, s.isModule)
      case Again(btype, keys, onNoKey) => Stand(btype, (set k | k in keys), onNoKey, s.isModule)
  }

  predicate RunsNow(clients: Clients, c: nat, r: Round) {
    c in clients && Runs(clients[c].btype, clients[c].onNoKey, r)
  }

  /** Whether a turn brings a client back to the list of a key. */
  predicate Returns(clients: Clients, c: nat, key: Key, r: Round) {
    RunsNow(clients, c, r) && r.ending.Again? && key in r.ending.keys
  }

  // ----- Signals -----

  /** A client waits for what is signalled: a key of its type, or any as a module's; a deletion, if it wants to know. */
  predicate WaitsFor(s: Stand, e: Event) {
    && e.btype != NotBlocked && e.key in s.keys && (s.btype == e.btype || s.btype == Module)
    && (e.deleted ==> s.onNoKey)
  }

  lemma WaiterAwaits(clients: Clients, blocking: Index, next: nat, d: nat, e: Event)
    requires Indexed(clients, blocking, next) && d in clients && WaitsFor(StandOf(clients[d]), e)
    ensures Awaited(clients, blocking, e.key, e.btype, e.deleted)
  {
    hide Indexed;
    WaiterAt(clients, blocking, next, d, e.key);
    var i := Position(blocking[e.key], clients[d].keys[e.key]);
    assert ListOf(blocking, e.key)[i].client == d;
  }

  /** Only keys that were signalled, and that somebody waits for, are new in the queue. */
  ghost predicate OnlySignalled(before: set<Key>, after: set<Key>, events: seq<Event>, clients: Clients) {
    forall key :: key in after && key !in before ==> Among(events, key) && exists d :: d in clients && key in clients[d].keys
  }

  ghost predicate Among(events: seq<Event>, key: Key) {
    exists i :: 0 <= i < |events| && events[i].key == key && events[i].btype != NotBlocked
  }

  lemma SomebodyWaits(clients: Clients, blocking: Index, nokey: map<Key, nat>, next: nat, key: Key) returns (d: nat)
    requires Indexed(clients, blocking, next) && NoKeyExact(clients, blocking, nokey) && (key in blocking || key in nokey)
    ensures d in clients && key in clients[d].keys
  {
    hide Indexed, NoKeyExact;
    if key in nokey {
      NoKeyIsBlocking(clients, blocking, nokey, key);
    }
    Covered(clients, blocking, next, key);
    d := ListOf(blocking, key)[0].client;
  }

  /** The signals of a turn change nothing but the queue of ready keys, and no waiter misses one. */
  method SignalAll(t: Tables, events: seq<Event>)
    requires t.Valid()
    modifies t`ready, t`readyList
    ensures t.Valid() && old(t.readyList) <= t.readyList && old(t.ready) <= t.ready
    ensures forall e, d :: e in events && d in t.clients && WaitsFor(StandOf(t.clients[d]), e) ==> e.key in t.ready
    ensures OnlySignalled(old(t.ready), t.ready, events, t.clients)
  {
    hide Indexed, NoKeyExact, CountsExact, KeysOk, TotalExact, QueuedOnce, Awaited, WaitsFor, StandOf;
    for i := 0 to |events|
      invariant t.Valid() && old(t.readyList) <= t.readyList && old(t.ready) <= t.ready
      invariant forall j, d :: 0 <= j < i && d in t.clients && WaitsFor(StandOf(t.clients[d]), events[j]) ==>
          events[j].key in t.ready
      invariant OnlySignalled(old(t.ready), t.ready, events, t.clients)
    {
      var e := events[i];
      forall d | d in t.clients && WaitsFor(StandOf(t.clients[d]), e)
        ensures e.btype != NotBlocked && Awaited(t.clients, t.blocking, e.key, e.btype, e.deleted)
      {
        WaiterAwaits(t.clients, t.blocking, t.nextNode, d, e);
        WaitsForType(StandOf(t.clients[d]), e);
      }
      if e.key in t.blocking || e.key in t.nokey {
        ghost var d := SomebodyWaits(t.clients, t.blocking, t.nokey, t.nextNode, e.key);
      }
      t.Signal(e.key, e.btype, e.deleted);
      assert e.btype != NotBlocked ==> Among(events, e.key);
    }
  }

  lemma WaitsForType(s: Stand, e: Event)
    requires WaitsFor(s, e)
    ensures e.btype != NotBlocked
  {
  }

  // ----- One turn -----

  /**
    Who is woken: a client that waits for the type of the object found, a module's client if there
    is any object, and a client that wants to know of every change.
  */
  ghost predicate Wakes(s: Stand, r: Round) {
    s.onNoKey || (r.found != [] && s.btype in {r.found[0], Module})
  }

  /** What a command that is run again leaves of its client. */
  ghost predicate EndsAs(s: Stand, s': Stand, ending: Ending) {
    match ending
    case Finish => s'.btype == NotBlocked && s'.keys == {} && !s'.onNoKey && s'.isModule == s.isModule
    case Again(btype, keys, onNoKey) =>
      s'.btype == btype && (forall k :: k in s'.keys <==> k in keys) && s'.onNoKey == onNoKey && s'.isModule == s.isModule
  }

  /** Exactly the clients that are woken, but a module's, are run again; the others keep waiting. */
  lemma TurnIs(s: Stand, key: Key, r: Round)
    requires key in s.keys
    ensures Eligible(s.btype, s.onNoKey, r) <==> Wakes(s, r)
    ensures if Wakes(s, r) && s.btype != Module then EndsAs(s, Turn(s, key, r), r.ending) else Turn(s, key, r) == s
  {
  }

  /** The list of a key after the turn of one of its clients. */
  ghost predicate ListAfter(before: seq<Waiter>, after: seq<Waiter>, c: nat, runs: bool, back: bool) {
    if !runs then after == before
    else if !back then after == Drop(before, c)
    else after != [] && after[|after| - 1].client == c && after[..|after| - 1] == Drop(before, c)
  }

  /** Client c is woken, what then runs signals e, and client d waits for that; c itself does not wait while it runs. */
  ghost predicate Hears(clients: Clients, c: nat, r: Round, e: Event, d: nat) {
    && c in clients && d in clients && Wakes(StandOf(clients[c]), r) && e in r.signals
    && (d != c || clients[c].btype == Module) && WaitsFor(StandOf(clients[d]), e)
  }

  /** Client c is woken, what then runs signals a key, and client d waits for that key. */
  ghost predicate Stirs(clients: Clients, c: nat, r: Round, key: Key, d: nat) {
    && c in clients && d in clients && Wakes(StandOf(clients[c]), r) && Among(r.signals, key)
    && (d != c || clients[c].btype == Module) && key in clients[d].keys
  }

  /** Who hears the signals of a turn is told by where the clients stand before it. */
  lemma TurnHeard(start: Clients, mid: Clients, c: nat, r: Round, before: set<Key>, after: set<Key>)
    requires c in start && Wakes(StandOf(start[c]), r) && OnlyChanged(start, mid, c)
    requires if start[c].btype == Module then mid == start else mid[c].keys == map[]
    requires forall e, d :: e in r.signals && d in mid && WaitsFor(StandOf(mid[d]), e) ==> e.key in after
    requires OnlySignalled(before, after, r.signals, mid)
    ensures forall e, d :: Hears(start, c, r, e, d) ==> e.key in after
    ensures forall k :: k in after && k !in before ==> exists d :: Stirs(start, c, r, k, d)
  {
    hide WaitsFor, Among, Wakes;
    forall k | k in after && k !in before ensures exists d :: Stirs(start, c, r, k, d) {
      var d :| d in mid && k in mid[d].keys;
      assert Stirs(start, c, r, k, d);
    }
  }

  lemma NothingHeard(start: Clients, c: nat, r: Round)
    ensures c in start && !Wakes(StandOf(start[c]), r) ==> forall e, d :: !Hears(start, c, r, e, d)
  {
  }

  /** The turn of a client that waits for the key. */
  method GiveTurn(t: Tables, c: nat, key: Key, r: Round)
    requires t.Valid() && c in t.clients && key in t.clients[c].keys
    modifies t
    ensures t.Valid() && t.handling == old(t.handling) && OnlyChanged(old(t.clients), t.clients, c)
    ensures StandOf(t.clients[c]) == Turn(StandOf(old(t.clients)[c]), key, r)
    ensures !RunsNow(old(t.clients), c, r) ==> t.clients == old(t.clients)
    ensures ListAfter(ListOf(old(t.blocking), key), ListOf(t.blocking, key), c, RunsNow(old(t.clients), c, r),
        Returns(old(t.clients), c, key, r))
    ensures old(t.ready) <= t.ready
    ensures forall e, d :: Hears(old(t.clients), c, r, e, d) ==> e.key in t.ready
    ensures forall k :: k in t.ready && k !in old(t.ready) ==> exists d :: Stirs(old(t.clients), c, r, k, d)
  {
    hide Indexed, NoKeyExact, CountsExact, KeysOk, TotalExact, QueuedOnce, Drop, Extended, WaitsFor, Hears, Stirs,
        OnlySignalled;
    ghost var start := t.clients;
    NothingHeard(start, c, r);
    TurnIs(StandOf(start[c]), key, r);
    if !Eligible(t.clients[c].btype, t.clients[c].onNoKey, r) {
      Unchanged(start, c);
      return;
    }
    if t.clients[c].btype == Module {
      Unchanged(start, c);
      SignalAll(t, r.signals);
      TurnHeard(start, start, c, r, old(t.ready), t.ready);
      return;
    }
    t.UnblockOnKey(c, key);
    ghost var between, mid := t.blocking, t.clients;
    SignalAll(t, r.signals);
    TurnHeard(start, mid, c, r, old(t.ready), t.ready);
    if r.ending.Again? {
      t.BlockForKeys(c, r.ending.btype, r.ending.keys, r.ending.onNoKey);
      ExtendedAt(between, t.blocking, c, t.clients[c].keys, key);
      OnlyChangedTwice(start, mid, t.clients, c);
    }
  }

  lemma Unchanged(clients: Clients, c: nat)
    requires c in clients
    ensures OnlyChanged(clients, clients, c)
  {
  }

  lemma ExtendedAt(before: Index, after: Index, c: nat, keys: map<Key, nat>, key: Key)
    requires Extended(before, after, c, keys)
    ensures if key !in keys then ListOf(after, key) == ListOf(before, key)
      else ListOf(after, key) == ListOf(before, key) + [Waiter(keys[key], c)]
  {
  }

  // ----- One key -----

  function Names(ws: seq<Waiter>): (cs: seq<nat>)
    ensures |cs| == |ws| && forall i :: 0 <= i < |ws| ==> cs[i] == ws[i].client
  {
    seq(|ws|, i requires 0 <= i < |ws| => ws[i].client)
  }

  /** The waiters of a list whose commands are not run again, in its order. */
  ghost function Staying(clients: Clients, ws: seq<Waiter>, rounds: nat -> Round): (rest: seq<Waiter>) {
    if ws == [] then []
    else
      var w := ws[|ws| - 1];
      Staying(clients, ws[..|ws| - 1], rounds) + if RunsNow(clients, w.client, rounds(w.client)) then [] else [w]
  }

  /** The clients of a list whose commands block on the key again, in its order. */
  ghost function Returning(clients: Clients, ws: seq<Waiter>, key: Key, rounds: nat -> Round): (cs: seq<nat>) {
    if ws == [] then []
    else
      var w := ws[|ws| - 1];
      Returning(clients, ws[..|ws| - 1], key, rounds) + if Returns(clients, w.client, key, rounds(w.client))
        then [w.client] else []
  }

  lemma NextOf(clients: Clients, ws: seq<Waiter>, i: nat, key: Key, rounds: nat -> Round)
    requires i < |ws|
    ensures var c := ws[i].client;
      && Staying(clients, ws[..i + 1], rounds) == Staying(clients, ws[..i],
          rounds) + (if RunsNow(clients, c, rounds(c)) then [] else [ws[i]])
      && Returning(clients, ws[..i + 1], key, rounds) == Returning(clients, ws[..i], key,
          rounds) + (if Returns(clients, c, key, rounds(c)) then [c] else [])
      && Names(ws[..i + 1]) == Names(ws[..i]) + [c]
  {
    assert ws[..i + 1][..i] == ws[..i];
  }

  /** The list while it is walked: who stays, who has not had a turn yet, and who came back. */
  ghost predicate Walked(live: seq<Waiter>, stay: seq<Waiter>, rest: seq<Waiter>, back: seq<nat>) {
    && |stay| + |rest| <= |live| && live[..|stay| + |rest|] == stay + rest && Names(live[|stay| + |rest|..]) == back
  }

  /** A turn of the first of the rest. */
  lemma WalkOn(live: seq<Waiter>, live': seq<Waiter>, stay: seq<Waiter>, rest: seq<Waiter>, back: seq<nat>, runs: bool,
      returning: bool)
    requires Walked(live, stay, rest, back) && rest != [] && Distinct(live) && (returning ==> runs)
    requires ListAfter(live, live', rest[0].client, runs, returning)
    ensures Walked(live', stay + (if runs then [] else [rest[0]]), rest[1..], back + (if returning then [rest[0].client] else []))
  {
    hide Drop, Distinct;
    if !runs {
      assert stay + [rest[0]] + rest[1..] == stay + rest && back + [] == back;
    } else {
      WalkDrop(live, stay, rest, back);
      assert stay + [] == stay && back + [] == back;
      if returning {
        WalkBack(Drop(live, rest[0].client), live', stay, rest[1..], back, rest[0].client);
      }
    }
  }

  /** The client whose turn it is leaves the list. */
  lemma WalkDrop(live: seq<Waiter>, stay: seq<Waiter>, rest: seq<Waiter>, back: seq<nat>)
    requires Walked(live, stay, rest, back) && rest != [] && Distinct(live)
    ensures Walked(Drop(live, rest[0].client), stay, rest[1..], back)
  {
    hide Drop;
    var p := |stay|;
    assert live[p] == (stay + rest)[p] == rest[0];
    UnlinkDrops(live, p);
    hide Distinct;
    var dropped, n := Unlinked(live, p), p + |rest| - 1;
    var tail := live[n + 1..];
    assert live == (stay + rest) + tail;
    assert live[..p] == stay && live[p + 1..] == rest[1..] + tail;
    assert dropped == (stay + rest[1..]) + tail;
    assert dropped[..n] == stay + rest[1..] && dropped[n..] == tail;
  }

  /** It comes back at the end. */
  lemma WalkBack(dropped: seq<Waiter>, live: seq<Waiter>, stay: seq<Waiter>, rest: seq<Waiter>, back: seq<nat>, c: nat)
    requires Walked(dropped, stay, rest, back) && live != [] && live[|live| - 1].client == c && live[..|live| - 1] == dropped
    ensures Walked(live, stay, rest, back + [c])
  {
    var n, last := |stay| + |rest|, live[|live| - 1];
    assert live == dropped + [last];
    assert live[..n] == dropped[..n] && live[n..] == dropped[n..] + [last];
    assert Names(live[n..]) == Names(dropped[n..]) + [last.client];
  }

  /** Where the walk is: the node that comes next in the list as it is now. */
  datatype Cursor = Ended | Node(n: nat)

  function NodeAfter(ws: seq<Waiter>, p: nat): (c: Cursor)
    requires p < |ws|
  {
    if p + 1 < |ws| then Node(ws[p + 1].node) else Ended
  }

  lemma AtCursor(live: seq<Waiter>, stay: seq<Waiter>, rest: seq<Waiter>, back: seq<nat>)
    requires Walked(live, stay, rest, back) && rest != [] && Distinct(live)
    ensures Position(live, rest[0].node) == |stay| < |live| && live[|stay|] == rest[0]
    ensures |rest| > 1 ==> NodeAfter(live, |stay|) == Node(rest[1].node)
  {
    var p := |stay|;
    assert live[p] == (stay + rest)[p] == rest[0];
    var q := Position(live, rest[0].node);
    if |rest| > 1 {
      assert live[p + 1] == (stay + rest)[p + 1] == rest[1];
    }
  }

  /** Only clients that have had a turn have changed, and as their turn says. */
  ghost predicate TurnsTaken(before: Clients, after: Clients, key: Key, rounds: nat -> Round, ws: seq<Waiter>) {
    && before.Keys == after.Keys
    && (forall c :: c in after && after[c] != before[c] ==> RunsNow(before, c, rounds(c)) && c in Names(ws))
    && (forall i :: 0 <= i < |ws| ==> ws[i].client in after && TurnTaken(before, after, key, rounds, ws[i].client))
  }

  ghost predicate TurnTaken(before: Clients, after: Clients, key: Key, rounds: nat -> Round, c: nat)
    requires c in after
  {
    c in before && StandOf(after[c]) == Turn(StandOf(before[c]), key, rounds(c))
  }

  lemma NoTurnYet(clients: Clients, key: Key, rounds: nat -> Round)
    ensures TurnsTaken(clients, clients, key, rounds, [])
  {
  }

  lemma OneTurn(start: Clients, before: Clients, after: Clients, key: Key, rounds: nat -> Round, ws: seq<Waiter>, w: Waiter)
    requires TurnsTaken(start, before, key, rounds, ws) && w.client in before && w.client in start &&
        before[w.client] == start[w.client]
    requires OnlyChanged(before, after, w.client) &&
        StandOf(after[w.client]) == Turn(StandOf(before[w.client]), key, rounds(w.client))
    requires !RunsNow(before, w.client, rounds(w.client)) ==> after == before
    requires w.client !in Names(ws)
    ensures TurnsTaken(start, after, key, rounds, ws + [w])
  {
    hide Turn, StandOf;
    var all := ws + [w];
    assert Names(all)[|ws|] == w.client;
    forall c | c in after && after[c] != start[c] ensures RunsNow(start, c, rounds(c)) && c in Names(all) {
      if c != w.client {
        var i :| 0 <= i < |ws| && Names(ws)[i] == c;
        assert Names(all)[i] == c;
      }
    }
    forall i | 0 <= i < |all| ensures all[i].client in after && TurnTaken(start, after, key, rounds, all[i].client) {
      if i < |ws| {
        assert all[i] == ws[i] && Names(ws)[i] == ws[i].client;
        assert TurnTaken(start, before, key, rounds, ws[i].client);
      }
    }
  }

  // ----- Who hears the signals of a key's turns -----

  type Stands = map<nat, Stand>

  function StandsOf(clients: Clients): (stands: Stands) {
    map c | c in clients :: StandOf(clients[c])
  }

  /** Where a client stands when the i-th turn begins. */
  function Meanwhile(s: Stand, d: nat, turns: seq<nat>, i: nat, key: Key, r: Round): (s': Stand)
    requires i <= |turns|
  {
    if d in turns[..i] then Turn(s, key, r) else s
  }

  /** What the i-th turn runs signals e, and client d waits for that by then. */
  ghost predicate HeardBy(stands: Stands, key: Key, rounds: nat -> Round, turns: seq<nat>, i: nat, e: Event, d: nat)
    requires i < |turns|
  {
    var c := turns[i];
    && c in stands && d in stands && Wakes(stands[c], rounds(c)) && e in rounds(c).signals
    && (d != c || stands[c].btype == Module) && WaitsFor(Meanwhile(stands[d], d, turns, i, key, rounds(d)), e)
  }

  ghost predicate Heard(stands: Stands, key: Key, rounds: nat -> Round, turns: seq<nat>, e: Event) {
    exists i: nat, d: nat :: i < |turns| && HeardBy(stands, key, rounds, turns, i, e, d)
  }

  /** What the i-th turn runs signals a key, and client d waits for that key by then. */
  ghost predicate StirredBy(stands: Stands, key: Key, rounds: nat -> Round, turns: seq<nat>, i: nat, k: Key, d: nat)
    requires i < |turns|
  {
    var c := turns[i];
    && c in stands && d in stands && Wakes(stands[c], rounds(c)) && Among(rounds(c).signals, k)
    && (d != c || stands[c].btype == Module) && k in Meanwhile(stands[d], d, turns, i, key, rounds(d)).keys
  }

  /** One of the turns signals a key that somebody waits for by then. */
  ghost predicate Signalled(stands: Stands, key: Key, rounds: nat -> Round, turns: seq<nat>, k: Key) {
    exists i: nat, d: nat :: i < |turns| && StirredBy(stands, key, rounds, turns, i, k, d)
  }

  /** What the first i turns put in the queue. */
  ghost predicate Queued(stands: Stands, key: Key, rounds: nat -> Round, turns: seq<nat>, i: nat, before: set<Key>,
      ready: set<Key>)
    requires i <= |turns|
  {
    && before <= ready
    && (forall j: nat, e, d: nat :: j < i && HeardBy(stands, key, rounds, turns, j, e, d) ==> e.key in ready)
    && (forall k :: k in ready && k !in before ==>
        exists j: nat, d: nat :: j < i && StirredBy(stands, key, rounds, turns, j, k, d))
  }

  lemma QueuedNone(stands: Stands, key: Key, rounds: nat -> Round, turns: seq<nat>, ready: set<Key>)
    ensures Queued(stands, key, rounds, turns, 0, ready, ready)
  {
  }

  lemma QueuedNext(stands: Stands, key: Key, rounds: nat -> Round, turns: seq<nat>, i: nat, before: set<Key>,
      ready: set<Key>, ready': set<Key>)
    requires i < |turns| && Queued(stands, key, rounds, turns, i, before, ready) && ready <= ready'
    requires forall e, d: nat :: HeardBy(stands, key, rounds, turns, i, e, d) ==> e.key in ready'
    requires forall k :: k in ready' && k !in ready ==> exists d: nat :: StirredBy(stands, key, rounds, turns, i, k, d)
    ensures Queued(stands, key, rounds, turns, i + 1, before, ready')
  {
    hide HeardBy, StirredBy;
    forall k | k in ready' && k !in before
      ensures exists j: nat, d: nat :: j < i + 1 && StirredBy(stands, key, rounds, turns, j, k, d)
    {
      if k in ready {
        var j: nat, d: nat :| j < i && StirredBy(stands, key, rounds, turns, j, k, d);
      } else {
        var d: nat :| StirredBy(stands, key, rounds, turns, i, k, d);
      }
    }
  }

  lemma QueuedAll(stands: Stands, key: Key, rounds: nat -> Round, turns: seq<nat>, before: set<Key>, ready: set<Key>)
    requires Queued(stands, key, rounds, turns, |turns|, before, ready)
    ensures before <= ready && (forall e :: Heard(stands, key, rounds, turns, e) ==> e.key in ready)
    ensures forall k :: k in ready && k !in before ==> Signalled(stands, key, rounds, turns, k)
  {
    hide HeardBy, StirredBy;
  }

  /** The clients of a list in the middle of its walk. */
  lemma MeanwhileIs(start: Clients, clients: Clients, key: Key, rounds: nat -> Round, ws: seq<Waiter>, i: nat, d: nat)
    requires i <= |ws| && TurnsTaken(start, clients, key, rounds, ws[..i]) && d in start
    ensures d in clients && StandOf(clients[d]) == Meanwhile(StandOf(start[d]), d, Names(ws), i, key, rounds(d))
  {
    hide Turn, StandOf;
    assert Names(ws)[..i] == Names(ws[..i]);
    if d in Names(ws[..i]) {
      var j :| 0 <= j < i && Names(ws[..i])[j] == d;
      assert ws[..i][j].client == d && TurnTaken(start, clients, key, rounds, ws[..i][j].client);
    }
  }

  lemma StirsThen(start: Clients, clients: Clients, key: Key, rounds: nat -> Round, ws: seq<Waiter>, i: nat, k: Key, d: nat)
    requires i < |ws| && TurnsTaken(start, clients, key, rounds, ws[..i]) && start.Keys == clients.Keys
    requires ws[i].client in start && clients[ws[i].client] == start[ws[i].client]
    requires Stirs(clients, ws[i].client, rounds(ws[i].client), k, d)
    ensures StirredBy(StandsOf(start), key, rounds, Names(ws), i, k, d)
  {
    hide TurnsTaken, Wakes, Meanwhile, Among;
    MeanwhileIs(start, clients, key, rounds, ws, i, d);
  }

  /** Whoever waits by then hears the turn of client ws[i]. */
  lemma HearsNow(start: Clients, clients: Clients, key: Key, rounds: nat -> Round, ws: seq<Waiter>, i: nat, e: Event, d: nat)
    requires i < |ws| && TurnsTaken(start, clients, key, rounds, ws[..i])
    requires ws[i].client in clients && ws[i].client in start && clients[ws[i].client] == start[ws[i].client]
    requires HeardBy(StandsOf(start), key, rounds, Names(ws), i, e, d)
    ensures Hears(clients, ws[i].client, rounds(ws[i].client), e, d)
  {
    hide TurnsTaken, WaitsFor, Wakes, Meanwhile;
    MeanwhileIs(start, clients, key, rounds, ws, i, d);
  }

  /**
    handleClientsBlockedOnKey. Each of the clients that wait when it begins gets one turn, in the order in
    which they blocked; nobody else does, and one that blocks again is not visited again. Those that stay
    keep their places, and those that came back follow them.
  */
  method HandleKey(t: Tables, key: Key, rounds: nat -> Round) returns (turns: seq<nat>)
    requires t.Valid()
    modifies t
    ensures t.Valid() && t.handling == old(t.handling) && turns == Names(ListOf(old(t.blocking), key))
    ensures t.clients.Keys == old(t.clients).Keys
    ensures forall c :: c in t.clients ==> StandOf(t.clients[c]) == Turn(StandOf(old(t.clients)[c]), key, rounds(c))
    ensures forall c :: c in t.clients && !(key in old(t.clients)[c].keys && RunsNow(old(t.clients), c, rounds(c))) ==>
      t.clients[c] == old(t.clients)[c]
    ensures forall c :: c in t.clients && key in old(t.clients)[c].keys ==>
      var s, s' := StandOf(old(t.clients)[c]), StandOf(t.clients[c]);
      if Wakes(s, rounds(c)) && s.btype != Module then EndsAs(s, s', rounds(c).ending) else s' == s
    ensures var ws := ListOf(old(t.blocking), key);
      Walked(ListOf(t.blocking, key), Staying(old(t.clients), ws, rounds), [], Returning(old(t.clients), ws, key, rounds))
    ensures NoDup(turns) && forall c :: c in turns <==> c in old(t.clients) && key in old(t.clients)[c].keys
    ensures old(t.ready) <= t.ready
    ensures forall e :: Heard(StandsOf(old(t.clients)), key, rounds, turns, e) ==> e.key in t.ready
    ensures forall k :: k in t.ready && k !in old(t.ready) ==> Signalled(StandsOf(old(t.clients)), key, rounds, turns, k)
  {
    hide Indexed, NoKeyExact, CountsExact, KeysOk, TotalExact, QueuedOnce, Drop, TurnsTaken, Walked, Turn, StandOf,
        Names, Staying, Returning, ListAfter, OnlyChanged, Heard, HeardBy, Signalled, StirredBy, Queued, Wakes, EndsAs, NoDup;
    ghost var start, ws := t.clients, ListOf(t.blocking, key);
    Covered(t.clients, t.blocking, t.nextNode, key);
    turns := Walk(t, key, rounds);
    AllTurns(start, t.clients, key, rounds, ws);
    AllServed(start, t.clients, key, rounds);
    NamesCover(start, key, ws);
    QueuedAll(StandsOf(start), key, rounds, turns, old(t.ready), t.ready);
  }

  /** Everybody who waits for a key is in its list, and nobody else. */
  lemma Covered(clients: Clients, blocking: Index, next: nat, key: Key)
    requires Indexed(clients, blocking, next)
    ensures var ws := ListOf(blocking, key);
      && Distinct(ws) && (key in blocking ==> ws != [])
      && (forall c :: c in clients && key in clients[c].keys ==> exists i :: 0 <= i < |ws| && ws[i].client == c)
      && (forall i :: 0 <= i < |ws| ==> ws[i].client in clients && key in clients[ws[i].client].keys)
  {
    hide Indexed;
    if key in blocking {
      ListCovers(clients, blocking, next, key);
    } else {
      NobodyWaits(clients, blocking, next, key);
    }
  }

  /** The loop over the list of a key. */
  method Walk(t: Tables, key: Key, rounds: nat -> Round) returns (turns: seq<nat>)
    requires t.Valid()
    modifies t
    ensures t.Valid() && t.handling == old(t.handling) && turns == Names(ListOf(old(t.blocking), key))
    ensures TurnsTaken(old(t.clients), t.clients, key, rounds, ListOf(old(t.blocking), key))
    ensures var ws := ListOf(old(t.blocking), key);
      Walked(ListOf(t.blocking, key), Staying(old(t.clients), ws, rounds), [], Returning(old(t.clients), ws, key, rounds))
    ensures Queued(StandsOf(old(t.clients)), key, rounds, turns, |turns|, old(t.ready), t.ready)
  {
    hide Indexed, NoKeyExact, CountsExact, KeysOk, TotalExact, QueuedOnce, Drop, TurnsTaken, Walked, Turn, StandOf,
        Staying, Returning, ListAfter, OnlyChanged, HeardBy, StirredBy, Queued;
    ghost var start, ws := t.clients, ListOf(t.blocking, key);
    ghost var stands, names := StandsOf(start), Names(ws);
    turns := [];
    WalkStart(start, ws, key, rounds);
    NoTurnYet(start, key, rounds);
    QueuedNone(stands, key, rounds, names, t.ready);
    if key !in t.blocking {
      return;
    }
    Covered(t.clients, t.blocking, t.nextNode, key);
    var count := |t.blocking[key]|;
    var cursor := Node(t.blocking[key][0].node);
    ghost var i := 0;
    while cursor.Node? && count > 0
      invariant 0 <= i <= |ws| && count == |ws| - i && (i < |ws| ==> cursor == Node(ws[i].node))
      invariant t.Valid() && t.handling == old(t.handling) && turns == Names(ws[..i])
      invariant TurnsTaken(start, t.clients, key, rounds, ws[..i])
      invariant Walked(ListOf(t.blocking, key), Staying(start, ws[..i], rounds), ws[i..], Returning(start, ws[..i], key, rounds))
      invariant Queued(stands, key, rounds, names, i, old(t.ready), t.ready)
      decreases count
    {
      ghost var ready := t.ready;
      var c;
      c, cursor := TakeTurn(t, key, rounds, cursor.n, start, ws, i);
      QueuedNext(stands, key, rounds, names, i, old(t.ready), ready, t.ready);
      count := count - 1;
      turns := turns + [c];
      i := i + 1;
    }
    assert ws[..|ws|] == ws && ws[|ws|..] == [];
  }

  /** A list without repetitions names everybody who waits. */
  lemma NamesCover(clients: Clients, key: Key, ws: seq<Waiter>)
    requires Distinct(ws)
    requires forall c :: c in clients && key in clients[c].keys ==> exists i :: 0 <= i < |ws| && ws[i].client == c
    requires forall i :: 0 <= i < |ws| ==> ws[i].client in clients && key in clients[ws[i].client].keys
    ensures |Names(ws)| == |ws| && NoDup(Names(ws)) && forall c :: c in Names(ws) <==> c in clients && key in clients[c].keys
  {
    forall c | c in clients && key in clients[c].keys ensures c in Names(ws) {
      var i :| 0 <= i < |ws| && ws[i].client == c;
      assert Names(ws)[i] == c;
    }
  }

  /** Who was served, by the type found, the client's type and its flag. */
  lemma AllServed(before: Clients, after: Clients, key: Key, rounds: nat -> Round)
    requires before.Keys == after.Keys
    requires forall c :: c in after ==> StandOf(after[c]) == Turn(StandOf(before[c]), key, rounds(c))
    ensures forall c :: c in after && key in before[c].keys ==>
      var s, s' := StandOf(before[c]), StandOf(after[c]);
      if Wakes(s, rounds(c)) && s.btype != Module then EndsAs(s, s', rounds(c).ending) else s' == s
  {
    hide Turn, Wakes, EndsAs;
    forall c | c in after && key in before[c].keys
      ensures var s, s' := StandOf(before[c]), StandOf(after[c]);
        if Wakes(s, rounds(c)) && s.btype != Module then EndsAs(s, s', rounds(c).ending) else s' == s
    {
      TurnIs(StandOf(before[c]), key, rounds(c));
    }
  }

  /** One step of the walk: the node is found in the list as it is now, and the next one is noted before the turn. */
  method TakeTurn(t: Tables, key: Key, rounds: nat -> Round, node: nat, ghost start: Clients, ghost ws: seq<Waiter>, ghost i: nat)
    returns (c: nat, cursor: Cursor)
    requires t.Valid() && i < |ws| && node == ws[i].node && Distinct(ws) && TurnsTaken(start, t.clients, key, rounds, ws[..i])
    requires Walked(ListOf(t.blocking, key), Staying(start, ws[..i], rounds), ws[i..], Returning(start, ws[..i], key, rounds))
    modifies t
    ensures t.Valid() && t.handling == old(t.handling) && TurnsTaken(start, t.clients, key, rounds, ws[..i + 1])
    ensures c == ws[i].client && (i + 1 < |ws| ==> cursor == Node(ws[i + 1].node)) && Names(ws[..i + 1]) == Names(ws[..i]) + [c]
    ensures Walked(ListOf(t.blocking, key), Staying(start, ws[..i + 1], rounds), ws[i + 1..],
        Returning(start, ws[..i + 1], key, rounds))
    ensures old(t.ready) <= t.ready
    ensures forall e, d: nat :: HeardBy(StandsOf(start), key, rounds, Names(ws), i, e, d) ==> e.key in t.ready
    ensures forall k :: k in t.ready && k !in old(t.ready) ==>
        exists d: nat :: StirredBy(StandsOf(start), key, rounds, Names(ws), i, k, d)
  {
    hide Indexed, NoKeyExact, CountsExact, KeysOk, TotalExact, QueuedOnce, Drop, TurnsTaken, Turn, StandOf, Names,
        Staying, Returning, ListAfter, OnlyChanged, Returns, RunsNow, Distinct, Walked, HeardBy, Hears, Stirs,
        StirredBy, Wakes, Meanwhile;
    ghost var stay, back := Staying(start, ws[..i], rounds), Returning(start, ws[..i], key, rounds);
    ghost var live, clients := ListOf(t.blocking, key), t.clients;
    LiveNow(t.clients, t.blocking, t.nextNode, key, stay, ws[i..], back);
    AtCursor(live, stay, ws[i..], back);
    var l := t.blocking[key];
    var p := Position(l, node);
    c, cursor := l[p].client, NodeAfter(l, p);
    NotYet(start, t.clients, key, rounds, ws, i);
    GiveTurn(t, c, key, rounds(c));
    forall e, d: nat | HeardBy(StandsOf(start), key, rounds, Names(ws), i, e, d) ensures Hears(clients, c, rounds(c), e, d) {
      HearsNow(start, clients, key, rounds, ws, i, e, d);
    }
    SameKeys(start, clients, key, rounds, ws[..i]);
    forall k | k in t.ready && k !in old(t.ready)
      ensures exists d: nat :: StirredBy(StandsOf(start), key, rounds, Names(ws), i, k, d)
    {
      var d: nat :| Stirs(clients, c, rounds(c), k, d);
      StirsThen(start, clients, key, rounds, ws, i, k, d);
    }
    RunsSame(start, clients, c, key, rounds(c));
    WalkOn(live, ListOf(t.blocking, key), stay, ws[i..], back, RunsNow(start, c, rounds(c)), Returns(start, c, key, rounds(c)));
    NextOf(start, ws, i, key, rounds);
    OneTurn(start, clients, t.clients, key, rounds, ws[..i], ws[i]);
    assert ws[..i] + [ws[i]] == ws[..i + 1] && ws[i..][1..] == ws[i + 1..];
  }

  lemma SameKeys(start: Clients, clients: Clients, key: Key, rounds: nat -> Round, ws: seq<Waiter>)
    requires TurnsTaken(start, clients, key, rounds, ws)
    ensures start.Keys == clients.Keys
  {
  }

  lemma WalkStart(clients: Clients, ws: seq<Waiter>, key: Key, rounds: nat -> Round)
    ensures Walked(ws, Staying(clients, ws[..0], rounds), ws[0..], Returning(clients, ws[..0], key, rounds)) &&
        Names(ws[..0]) == []
  {
    assert ws[..0] == [] && ws[0..] == ws && [] + ws == ws;
  }

  lemma LiveNow(clients: Clients, blocking: Index, next: nat, key: Key, stay: seq<Waiter>, rest: seq<Waiter>, back: seq<nat>)
    requires Indexed(clients, blocking, next) && Walked(ListOf(blocking, key), stay, rest, back) && rest != []
    ensures key in blocking && Distinct(blocking[key])
    ensures rest[0].client in clients && key in clients[rest[0].client].keys
  {
    var live := ListOf(blocking, key);
    assert live[|stay|] == (stay + rest)[|stay|];
    assert ListOk(clients, key, live);
  }

  lemma NotYet(start: Clients, clients: Clients, key: Key, rounds: nat -> Round, ws: seq<Waiter>, i: nat)
    requires i < |ws| && TurnsTaken(start, clients, key, rounds, ws[..i]) && Distinct(ws) && ws[i].client in clients
    ensures ws[i].client !in Names(ws[..i]) && ws[i].client in start && clients[ws[i].client] == start[ws[i].client]
  {
  }

  lemma RunsSame(start: Clients, clients: Clients, c: nat, key: Key, r: Round)
    requires c in start && c in clients && clients[c] == start[c]
    ensures RunsNow(start, c, r) == RunsNow(clients, c, r) && Returns(start, c, key, r) == Returns(clients, c, key, r)
    ensures Returns(start, c, key, r) ==> RunsNow(start, c, r)
  {
  }

  /** When the list is done, everybody who waited has had a turn. */
  lemma AllTurns(before: Clients, after: Clients, key: Key, rounds: nat -> Round, ws: seq<Waiter>)
    requires TurnsTaken(before, after, key, rounds, ws)
    requires forall c :: c in before && key in before[c].keys ==> exists i :: 0 <= i < |ws| && ws[i].client == c
    requires forall i :: 0 <= i < |ws| ==> ws[i].client in before && key in before[ws[i].client].keys
    ensures before.Keys == after.Keys
    ensures forall c :: c in after ==> StandOf(after[c]) == Turn(StandOf(before[c]), key, rounds(c))
    ensures forall c :: c in after && !(key in before[c].keys && RunsNow(before, c, rounds(c))) ==> after[c] == before[c]
  {
    forall c | c in after
      ensures StandOf(after[c]) == Turn(StandOf(before[c]), key, rounds(c))
      ensures !(key in before[c].keys && RunsNow(before, c, rounds(c))) ==> after[c] == before[c]
    {
      if key in before[c].keys {
        var i :| 0 <= i < |ws| && ws[i].client == c;
        assert TurnTaken(before, after, key, rounds, ws[i].client);
      } else {
        Bystander(before, after, key, rounds, ws, c);
      }
    }
  }

  lemma Bystander(before: Clients, after: Clients, key: Key, rounds: nat -> Round, ws: seq<Waiter>, c: nat)
    requires TurnsTaken(before, after, key, rounds, ws) && c in before && c in after && key !in before[c].keys
    requires forall i :: 0 <= i < |ws| ==> ws[i].client in before && key in before[ws[i].client].keys
    ensures after[c] == before[c]
  {
  }

  // ----- One pass, and all of them -----

  /** What the turns of a pass make of a client: one for every ready key that it waits for when the key's turn comes. */
  function Turns(s: Stand, keys: seq<Key>, rounds: (Key, nat) -> Round, c: nat): (s': Stand) {
    if keys == [] then s
    else var key := keys[|keys| - 1]; Turn(Turns(s, keys[..|keys| - 1], rounds, c), key, rounds(key, c))
  }

  ghost predicate Passed(before: Clients, after: Clients, keys: seq<Key>, rounds: (Key, nat) -> Round) {
    before.Keys == after.Keys && forall c :: c in after ==> StandOf(after[c]) == Turns(StandOf(before[c]), keys, rounds, c)
  }

  lemma PassedNext(before: Clients, mid: Clients, after: Clients, keys: seq<Key>, i: nat, rounds: (Key, nat) -> Round)
    requires i < |keys| && Passed(before, mid, keys[..i], rounds) && mid.Keys == after.Keys
    requires forall c :: c in after ==> StandOf(after[c]) == Turn(StandOf(mid[c]), keys[i], rounds(keys[i], c))
    ensures Passed(before, after, keys[..i + 1], rounds)
  {
    hide Turn, StandOf;
    assert keys[..i + 1][..i] == keys[..i];
  }

  function OfKey(rounds: (Key, nat) -> Round, key: Key): (r: nat -> Round) {
    (c: nat) => rounds(key, c)
  }

  /** Where everybody stands after the turns of some keys. */
  function AfterKeys(stands: Stands, keys: seq<Key>, rounds: (Key, nat) -> Round): (stands': Stands) {
    map c | c in stands :: Turns(stands[c], keys, rounds, c)
  }

  lemma PassedStands(before: Clients, after: Clients, keys: seq<Key>, rounds: (Key, nat) -> Round)
    requires Passed(before, after, keys, rounds)
    ensures StandsOf(after) == AfterKeys(StandsOf(before), keys, rounds)
  {
    hide Turns, StandOf;
  }

  /** The turns of one key: everybody who waits for it then, once. */
  ghost predicate TurnsOf(stands: Stands, key: Key, turns: seq<nat>) {
    NoDup(turns) && forall c :: c in turns <==> c in stands && key in stands[c].keys
  }

  /** What is signalled in the turns of the k-th key and waited for is not lost: its key has its turn later or is ready again. */
  ghost predicate NoneLost(stands: Stands, keys: seq<Key>, rounds: (Key, nat) -> Round, turns: seq<nat>, k: nat, later: seq<Key>)
    requires k < |keys|
  {
    forall e :: Heard(AfterKeys(stands, keys[..k], rounds), keys[k], OfKey(rounds, keys[k]), turns, e) ==>
      e.key in keys[k + 1..] || e.key in later
  }

  /**
    The first keys of a pass: who had a turn, that no signal of these turns is lost, and that every key
    that is ready for the next pass was signalled in one of them.
  */
  ghost predicate PassSoFar(stands: Stands, keys: seq<Key>, rounds: (Key, nat) -> Round, turns: seq<seq<nat>>, later: seq<Key>) {
    && |turns| <= |keys|
    && (forall k :: 0 <= k < |turns| ==> TurnsOf(AfterKeys(stands, keys[..k], rounds), keys[k], turns[k]))
    && (forall k :: 0 <= k < |turns| ==> NoneLost(stands, keys, rounds, turns[k], k, later))
    && (forall key :: key in later ==> SignalledIn(stands, keys, rounds, turns, key))
  }

  ghost predicate SignalledAt(stands: Stands, keys: seq<Key>, rounds: (Key, nat) -> Round, turns: seq<nat>, k: nat, key: Key)
    requires k < |keys|
  {
    Signalled(AfterKeys(stands, keys[..k], rounds), keys[k], OfKey(rounds, keys[k]), turns, key)
  }

  /** A key was signalled by some turn of the pass. */
  ghost predicate SignalledIn(stands: Stands, keys: seq<Key>, rounds: (Key, nat) -> Round, turns: seq<seq<nat>>, key: Key)
    requires |turns| <= |keys|
  {
    exists k :: 0 <= k < |turns| && SignalledAt(stands, keys, rounds, turns[k], k, key)
  }

  lemma PassNext(stands: Stands, keys: seq<Key>, rounds: (Key, nat) -> Round, turns: seq<seq<nat>>, later: seq<Key>,
      ts: seq<nat>, later': seq<Key>)
    requires PassSoFar(stands, keys, rounds, turns, later) && |turns| < |keys|
    requires forall key :: key in later ==> key in later'
    requires TurnsOf(AfterKeys(stands, keys[..|turns|], rounds), keys[|turns|], ts)
    requires NoneLost(stands, keys, rounds, ts, |turns|, later')
    requires forall key :: key in later' && key !in later ==>
      SignalledAt(stands, keys, rounds, ts, |turns|, key)
    ensures PassSoFar(stands, keys, rounds, turns + [ts], later')
  {
    hide TurnsOf, Heard, SignalledAt, AfterKeys, OfKey;
    var all := turns + [ts];
    forall key | key in later' ensures SignalledIn(stands, keys, rounds, all, key) {
      if key in later {
        assert SignalledIn(stands, keys, rounds, turns, key);
        var k :| 0 <= k < |turns| && SignalledAt(stands, keys, rounds, turns[k], k, key);
        assert all[k] == turns[k];
      } else {
        assert all[|turns|] == ts;
      }
    }
    forall k | 0 <= k < |all|
      ensures TurnsOf(AfterKeys(stands, keys[..k], rounds), keys[k], all[k]) && NoneLost(stands, keys, rounds, all[k], k, later')
    {
      if k < |turns| {
        assert all[k] == turns[k] && NoneLost(stands, keys, rounds, turns[k], k, later);
      }
    }
  }

  /**
    The inner loop of handleClientsBlockedOnKeys: a key may be signalled again as soon as its turn comes.
    Everybody who waits for a key has a turn, and nothing that is signalled meanwhile is lost.
  */
  method HandleReady(t: Tables, rounds: (Key, nat) -> Round) returns (turns: seq<seq<nat>>)
    requires t.Valid() && t.handling == []
    modifies t
    ensures t.Valid() && t.handling == [] && Passed(old(t.clients), t.clients, old(t.readyList), rounds)
    ensures |turns| == |old(t.readyList)|
    ensures PassSoFar(StandsOf(old(t.clients)), old(t.readyList), rounds, turns, t.readyList)
  {
    hide Indexed, NoKeyExact, CountsExact, KeysOk, TotalExact, QueuedOnce, Passed, Turn, StandOf, PassSoFar, StandsOf,
        Walked, Staying, Returning, Wakes, EndsAs, Heard, Signalled, NoDup;
    ghost var keys, start := t.readyList, t.clients;
    assert t.handling + t.readyList == t.readyList == t.readyList + [];
    t.handling, t.readyList := t.readyList, [];
    turns := [];
    NoKeysYet(start, rounds);
    NoTurnsYet(StandsOf(start), keys, rounds);
    while t.handling != []
      invariant |turns| <= |keys| && t.handling == keys[|turns|..] && t.Valid()
      invariant Passed(start, t.clients, keys[..|turns|], rounds)
      invariant PassSoFar(StandsOf(start), keys, rounds, turns, t.readyList)
      decreases |t.handling|
    {
      ghost var before, later := t.clients, t.readyList;
      var key := t.handling[0];
      QueueNext(t.ready, t.handling, t.readyList);
      t.ready := t.ready - {key};
      t.handling := t.handling[1..];
      ghost var ready := t.ready;
      InQueue(t.ready, t.handling, t.readyList);
      var ts := HandleKey(t, key, OfKey(rounds, key));
      InQueue(t.ready, t.handling, t.readyList);
      PassedNext(start, before, t.clients, keys, |turns|, rounds);
      PassedStands(start, before, keys[..|turns|], rounds);
      ThisKey(StandsOf(start), keys, rounds, turns, later, before, ts, ready, t.ready, t.handling, t.readyList);
      turns := turns + [ts];
    }
    assert keys[..|turns|] == keys;
  }

  lemma InQueue(ready: set<Key>, a: seq<Key>, b: seq<Key>)
    requires QueuedOnce(ready, a + b)
    ensures NoDup(a + b) && forall key :: key in ready <==> key in a || key in b
  {
  }

  lemma NoTurnsYet(stands: Stands, keys: seq<Key>, rounds: (Key, nat) -> Round)
    ensures PassSoFar(stands, keys, rounds, [], [])
  {
  }

  /** What the turns of the next key add. */
  lemma ThisKey(stands: Stands, keys: seq<Key>, rounds: (Key, nat) -> Round, turns: seq<seq<nat>>, later: seq<Key>,
      before: Clients, ts: seq<nat>, ready: set<Key>, ready': set<Key>, rest: seq<Key>, later': seq<Key>)
    requires PassSoFar(stands, keys, rounds, turns, later) && |turns| < |keys| && rest == keys[|turns| + 1..]
    requires StandsOf(before) == AfterKeys(stands, keys[..|turns|], rounds)
    requires NoDup(ts) && forall c :: c in ts <==> c in before && keys[|turns|] in before[c].keys
    requires (forall key :: key in ready <==> key in rest || key in later) && NoDup(rest + later) && ready <= ready'
    requires (forall key :: key in ready' <==> key in rest || key in later') && NoDup(rest + later')
    requires forall e :: Heard(StandsOf(before), keys[|turns|], OfKey(rounds, keys[|turns|]), ts, e) ==> e.key in ready'
    requires forall k :: k in ready' && k !in ready ==>
      Signalled(StandsOf(before), keys[|turns|], OfKey(rounds, keys[|turns|]), ts, k)
    ensures PassSoFar(stands, keys, rounds, turns + [ts], later')
  {
    hide PassSoFar, Heard, Signalled, AfterKeys, OfKey, NoDup;
    forall key | key in later' && key !in later ensures SignalledAt(stands, keys, rounds, ts, |turns|, key) {
      assert key !in rest by { Apart(rest, later', key); }
    }
    forall key | key in later ensures key in later' {
      assert key !in rest by { Apart(rest, later, key); }
    }
    PassNext(stands, keys, rounds, turns, later, ts, later');
  }

  lemma Apart(a: seq<Key>, b: seq<Key>, key: Key)
    requires NoDup(a + b) && key in b
    ensures key !in a
  {
    var j :| 0 <= j < |b| && b[j] == key;
    assert (a + b)[|a| + j] == key;
    assert forall i :: 0 <= i < |a| ==> (a + b)[i] == a[i];
  }

  lemma NoKeysYet(clients: Clients, rounds: (Key, nat) -> Round)
    ensures Passed(clients, clients, [], rounds)
  {
  }

  function OfPass(rounds: (nat, Key, nat) -> Round, n: nat): (r: (Key, nat) -> Round) {
    (key: Key, c: nat) => rounds(n, key, c)
  }

  /** The turns of several passes over the keys that were ready when each began. */
  function PassTurns(s: Stand, passes: seq<seq<Key>>, rounds: (nat, Key, nat) -> Round, c: nat): (s': Stand) {
    if passes == [] then s
    else
      var n := |passes| - 1;
      Turns(PassTurns(s, passes[..n], rounds, c), passes[n], OfPass(rounds, n), c)
  }

  /** Where everybody stands after some passes. */
  function AfterPasses(stands: Stands, passes: seq<seq<Key>>, rounds: (nat, Key, nat) -> Round): (stands': Stands) {
    map c | c in stands :: PassTurns(stands[c], passes, rounds, c)
  }

  /** The keys that are ready after a pass. */
  function Following(passes: seq<seq<Key>>, n: nat, ready: seq<Key>): (keys: seq<Key>)
    requires n < |passes|
  {
    if n + 1 < |passes| then passes[n + 1] else ready
  }

  /** Each pass goes through its keys, and what is signalled in it and waited for is in the rest of it or in the next one. */
  ghost predicate PassesTold(stands: Stands, passes: seq<seq<Key>>, rounds: (nat, Key, nat) -> Round,
      turns: seq<seq<seq<nat>>>, ready: seq<Key>) {
    && |turns| == |passes|
    && (forall n :: 0 <= n < |passes| ==> |turns[n]| == |passes[n]|)
    && forall n :: 0 <= n < |passes| ==>
        PassSoFar(AfterPasses(stands, passes[..n], rounds), passes[n], OfPass(rounds, n), turns[n], Following(passes, n, ready))
  }

  /** One more pass, over the keys that were ready. */
  lemma PassesNext(stands: Stands, passes: seq<seq<Key>>, rounds: (nat, Key, nat) -> Round, turns: seq<seq<seq<nat>>>,
      keys: seq<Key>, ts: seq<seq<nat>>, ready: seq<Key>)
    requires PassesTold(stands, passes, rounds, turns, keys) && |ts| == |keys|
    requires PassSoFar(AfterPasses(stands, passes, rounds), keys, OfPass(rounds, |passes|), ts, ready)
    ensures PassesTold(stands, passes + [keys], rounds, turns + [ts], ready)
  {
    hide PassSoFar, AfterPasses, OfPass;
    var passes', turns' := passes + [keys], turns + [ts];
    forall n | 0 <= n < |passes'|
      ensures |turns'[n]| == |passes'[n]|
      ensures PassSoFar(AfterPasses(stands, passes'[..n], rounds), passes'[n], OfPass(rounds, n), turns'[n],
          Following(passes', n, ready))
    {
      assert passes'[..n] == passes[..n];
      if n < |passes| {
        assert passes'[n] == passes[n] && turns'[n] == turns[n];
        assert Following(passes', n, ready) == Following(passes, n, keys);
      } else {
        assert passes[..n] == passes;
      }
    }
  }

  lemma PassesStands(before: Clients, after: Clients, passes: seq<seq<Key>>, rounds: (nat, Key, nat) -> Round)
    requires before.Keys == after.Keys
    requires forall c :: c in after ==> StandOf(after[c]) == PassTurns(StandOf(before[c]), passes, rounds, c)
    ensures StandsOf(after) == AfterPasses(StandsOf(before), passes, rounds)
  {
    hide PassTurns, StandOf;
  }

  lemma NoPassYet(stands: Stands, rounds: (nat, Key, nat) -> Round, ready: seq<Key>)
    ensures PassesTold(stands, [], rounds, [], ready)
  {
  }

  /**
    The outer loop of handleClientsBlockedOnKeys, watched for a number of passes: it ends when no key is
    ready any more. What became of every client is told by the keys of the passes, and no signal is lost.
  */
  method HandleAll(t: Tables, watched: nat, rounds: (nat, Key, nat) -> Round)
    returns (passes: seq<seq<Key>>, turns: seq<seq<seq<nat>>>)
    requires t.Valid() && t.handling == []
    modifies t
    ensures t.Valid() && t.handling == [] && |passes| <= watched && (|passes| < watched ==> t.readyList == [] && t.ready == {})
    ensures t.clients.Keys == old(t.clients).Keys
    ensures forall c :: c in t.clients ==> StandOf(t.clients[c]) == PassTurns(StandOf(old(t.clients)[c]), passes, rounds, c)
    ensures PassesTold(StandsOf(old(t.clients)), passes, rounds, turns, t.readyList)
    ensures (if passes != [] then passes[0] else t.readyList) == old(t.readyList)
  {
    hide Indexed, NoKeyExact, CountsExact, KeysOk, TotalExact, Turns, StandOf, NoDup, PassSoFar, PassesTold, StandsOf;
    ghost var start := t.clients;
    passes, turns := [], [];
    NoPassYet(StandsOf(start), rounds, t.readyList);
    while |passes| < watched && t.readyList != []
      invariant t.Valid() && t.handling == [] && |passes| <= watched && t.clients.Keys == start.Keys
      invariant forall c :: c in t.clients ==> StandOf(t.clients[c]) == PassTurns(StandOf(start[c]), passes, rounds, c)
      invariant PassesTold(StandsOf(start), passes, rounds, turns, t.readyList)
      invariant (if passes != [] then passes[0] else t.readyList) == old(t.readyList)
      decreases watched - |passes|
    {
      var n, keys := |passes|, t.readyList;
      PassesStands(start, t.clients, passes, rounds);
      var ts := HandleReady(t, OfPass(rounds, n));
      assert (passes + [keys])[..n] == passes;
      PassesNext(StandsOf(start), passes, rounds, turns, keys, ts, t.readyList);
      passes, turns := passes + [keys], turns + [ts];
    }
  }
}
