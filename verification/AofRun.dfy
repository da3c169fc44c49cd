/**
  Whole runs of the server: any sequence of commands, flushes and rewrites, with every
  outcome of every system call. What a crash at any moment leaves is decided by the
  outcomes alone.
*/
module AofRun {
  import opened Common
  import opened AofDisk
  import opened AofManifest
  import opened AofRestart

  /**
    A rewrite first flushes n commands and possibly part of the next; p and p2 tell how
    the manifest writes end.
  */
  datatype Event<C> =
    | Command(c: C)
    | Flush(n: nat, torn: bool)
    | Rewrite(n: nat, torn: bool, created: bool, p: Persist, forked: bool, pid: nat)
    | Done(exited: bool, renamed: bool, p: Persist, gc: bool, p2: Persist)

  /** What the outcomes so far amount to: the commands given, how many are flushed, and the state of the manifest. */
  datatype Track<C> = Track(cmds: seq<C>, flushed: nat, torn: bool, sync: Sync, child: bool)

  function Begin<C>(): (k: Track<C>) {
    Track([], 0, false, InSync, false)
  }

  /** The flush of an event goes on where the last one stopped. */
  ghost predicate LegalFlush<C>(k: Track<C>, n: nat, torn: bool) {
    && k.flushed + n <= |k.cmds| && (torn ==> k.flushed + n < |k.cmds|) && (k.torn && n == 0 ==> torn)
  }

  /** A rewrite that switches files and forks has flushed everything before; the child ends only if there is one. */
  ghost predicate Legal<C>(k: Track<C>, e: Event<C>) {
    match e
    case Command(_) => true
    case Flush(n, torn) => LegalFlush(k, n, torn)
    case Rewrite(n, torn, created, p, forked, _) =>
      LegalFlush(k, n, torn) && (created && p == Written ==> !torn && (forked ==> k.flushed + n == |k.cmds|))
    case Done(_, _, _, _, _) => k.child
  }

  function Next<C>(k: Track<C>, e: Event<C>): (k': Track<C>) {
    match e
    case Command(c) => k.(cmds := k.cmds + [c])
    case Flush(n, torn) => k.(flushed := k.flushed + n, torn := torn)
    case Rewrite(n, torn, created, p, forked, _) =>
      if k.child then k
      else
        var k1 := k.(flushed := k.flushed + n, torn := torn);
        if !created || p == Lost then k1 else if p == Written then k1.(sync := InSync, child := forked) else k1.(sync := Ahead)
    case Done(exited, renamed, p, _, _) =>
      k.(sync := if exited && renamed && p == Unsynced then Dangling else InSync, child := false)
  }

  function After<C>(events: seq<Event<C>>): (k: Track<C>) {
    if events == [] then Begin() else Next(After(events[..|events| - 1]), events[|events| - 1])
  }

  ghost predicate IsRun<C(!new)>(events: seq<Event<C>>) {
    forall j :: 0 <= j < |events| ==> Legal(After(events[..j]), events[j])
  }

  /**
    A directory sync failed and left a manifest that names a removed BASE, or one that lists
    one file too many while the last write was torn.
  */
  predicate Fatal<C>(k: Track<C>) {
    k.sync == Dangling || (k.sync == Ahead && k.torn)
  }

  /** What the flushed commands make of the dataset at the start. */
  ghost function Dataset<D, C>(s: Semantics<D, C>, d: D, k: Track<C>): (r: D)
    requires k.flushed <= |k.cmds|
  {
    Fold(s.apply, d, k.cmds[..k.flushed])
  }

  // ----- One event -----

  /** The server is where the outcomes say. */
  ghost predicate Follows<D(!new), C(!new)>(server: Server<D, C>, d: D, k: Track<C>)
    reads server
  {
    && server.Formed() && server.Durable() && k.flushed <= |k.cmds|
    && server.buf == k.cmds[k.flushed..] && server.flushed == Dataset(server.sem, d, k)
    && server.partial == k.torn && server.sync == k.sync && server.child.Some? == k.child
  }

  lemma FlushedMore<D, C>(s: Semantics<D, C>, d: D, cmds: seq<C>, k: nat, n: nat)
    requires k + n <= |cmds|
    ensures cmds[k..][n..] == cmds[k + n..]
    ensures Fold(s.apply, Fold(s.apply, d, cmds[..k]), cmds[k..][..n]) == Fold(s.apply, d, cmds[..k + n])
  {
    assert cmds[..k + n] == cmds[..k] + cmds[k..][..n];
    FoldAppend(s.apply, d, cmds[..k], cmds[k..][..n]);
  }

  /** The moments of one event, in terms of the outcomes before and after it. */
  method Step<D(!new), C(!new)>(server: Server<D, C>, ghost d: D, ghost k: Track<C>, e: Event<C>)
    requires Follows(server, d, k) && Legal(k, e)
    modifies server
    ensures Follows(server, d, Next(k, e))
    ensures Noted(server.sem, old(server.past), server.past, Dataset(server.sem, d, Next(k, e)), Fatal(k), Fatal(Next(k, e)))
  {
    hide Noted, Content, Shape, Fold, UpTo, Do, Bootable;
    match e {
      case Command(c) =>
        NotedNothing(server.sem, server.past, server.flushed, Fatal(k));
        server.Execute(c);
        assert (k.cmds + [c])[..k.flushed] == k.cmds[..k.flushed];
      case Flush(n, torn) =>
        FlushedMore(server.sem, d, k.cmds, k.flushed, n);
        server.Flush(n, torn);
      case Rewrite(n, torn, created, p, forked, pid) =>
        FlushedMore(server.sem, d, k.cmds, k.flushed, n);
        var ok := server.StartRewrite(n, torn, created, p, forked, pid);
      case Done(exited, renamed, p, gc, p2) =>
        server.RewriteDone(exited, renamed, p, gc, p2);
    }
  }

  // ----- The whole run -----

  /**
    The moments of event j, those from marks[j] up to marks[j + 1]: each has the dataset of
    the commands flushed by then, and the outcomes before or after the event decide
    whether it can be rebuilt; at the last of them, the outcomes after it.
  */
  ghost predicate ToldAt<D, C>(s: Semantics<D, C>, d: D, events: seq<Event<C>>, past: seq<Moment<D, C>>, marks: seq<nat>, j: nat)
    requires j < |events| && |marks| == |events| + 1
  {
    var before, after := After(events[..j]), After(events[..j + 1]);
    && marks[j] <= marks[j + 1] <= |past| && after.flushed <= |after.cmds|
    && Noted(s, past[..marks[j]], past[..marks[j + 1]], Dataset(s, d, after), Fatal(before), Fatal(after))
  }

  /** A history from which no call is missing, and what it says of every event. */
  ghost predicate Told<D, C(!new)>(s: Semantics<D, C>, d: D, events: seq<Event<C>>, past: seq<Moment<D, C>>, marks: seq<nat>) {
    && |marks| == |events| + 1 && marks[|events|] == |past| && marks[0] > 0 && Complete(past)
    && forall j :: 0 <= j < |events| ==> ToldAt(s, d, events, past, marks, j)
  }

  lemma ToldMore<D, C(!new)>(s: Semantics<D, C>, d: D, events: seq<Event<C>>, past: seq<Moment<D, C>>,
      past': seq<Moment<D, C>>, marks: seq<nat>, e: Event<C>)
    requires Told(s, d, events, past, marks) && Complete(past')
    requires var k := After(events); var k' := Next(k, e);
      k'.flushed <= |k'.cmds| && Noted(s, past, past', Dataset(s, d, k'), Fatal(k), Fatal(k'))
    ensures Told(s, d, events + [e], past', marks + [|past'|])
  {
    hide Fatal, Next, Dataset, Bootable, Complete;
    var events', marks' := events + [e], marks + [|past'|];
    assert events'[..|events|] == events && events'[..|events'|] == events';
    assert past'[..|past|] == past && past'[..|past'|] == past';
    assert ToldAt(s, d, events', past', marks', |events|);
    forall j | 0 <= j < |events| ensures ToldAt(s, d, events', past', marks', j) {
      assert ToldAt(s, d, events, past, marks, j);
      var j' := j + 1;
      assert events'[..j] == events[..j] && events'[..j'] == events[..j'];
      assert past'[..marks[j]] == past[..marks[j]] && past'[..marks[j']] == past[..marks[j']];
    }
  }

  /** Any run, from a server that has just started. */
  method Run<D(!new), C(!new)>(server: Server<D, C>, events: seq<Event<C>>) returns (ghost marks: seq<nat>)
    requires IsRun(events) && Follows(server, server.data, Begin())
    modifies server
    ensures Follows(server, old(server.data), After(events))
    ensures Told(server.sem, old(server.data), events, server.past, marks) && marks[0] == |old(server.past)|
    ensures old(server.past) <= server.past && UpTo(server.past, server.disk)
  {
    hide Noted, Follows, Fatal, Next, Legal, Dataset, ToldAt, Complete;
    ghost var d := server.data;
    marks := [|server.past|];
    FollowsUpTo(server, d, Begin());
    for j := 0 to |events|
      invariant Follows(server, d, After(events[..j]))
      invariant Told(server.sem, d, events[..j], server.past, marks) && marks[0] == |old(server.past)|
      invariant old(server.past) <= server.past && UpTo(server.past, server.disk)
    {
      ghost var past := server.past;
      NextAfter(events, j);
      Step(server, d, After(events[..j]), events[j]);
      FollowsUpTo(server, d, Next(After(events[..j]), events[j]));
      NotedGrows(server.sem, past, server.past, Dataset(server.sem, d, Next(After(events[..j]), events[j])),
        Fatal(After(events[..j])), Fatal(Next(After(events[..j]), events[j])));
      ToldMore(server.sem, d, events[..j], past, server.past, marks, events[j]);
      marks := marks + [|server.past|];
    }
    assert events[..|events|] == events;
  }

  lemma NextAfter<C>(events: seq<Event<C>>, j: nat)
    requires j < |events|
    ensures After(events[..j + 1]) == Next(After(events[..j]), events[j]) && events[..j] + [events[j]] == events[..j + 1]
  {
    hide Next;
    assert events[..j + 1][..j] == events[..j];
  }

  lemma FollowsUpTo<D(!new), C(!new)>(server: Server<D, C>, d: D, k: Track<C>)
    requires Follows(server, d, k)
    ensures k.flushed <= |k.cmds| && UpTo(server.past, server.disk)
  {
  }

  lemma NotedGrows<D, C>(s: Semantics<D, C>, before: seq<Moment<D, C>>, after: seq<Moment<D, C>>, flushed: D,
      risk0: bool, risk1: bool)
    requires Noted(s, before, after, flushed, risk0, risk1)
    ensures before <= after
  {
  }

  // ----- What survives -----

  /** No failed directory sync has left the manifest fatal, after any event. */
  ghost predicate NeverFatal<C(!new)>(events: seq<Event<C>>) {
    forall j :: 0 <= j <= |events| ==> !Fatal(After(events[..j]))
  }

  ghost predicate AllRebuilt<D, C>(s: Semantics<D, C>, past: seq<Moment<D, C>>, from: nat) {
    forall i :: from <= i < |past| ==> Bootable(s, past[i].disk, past[i].flushed)
  }

  /** Whether the directory sync of an event's manifest fails; that of the later clean-up does not matter. */
  predicate SyncFails<C>(e: Event<C>) {
    (e.Rewrite? || e.Done?) && e.p == Unsynced
  }

  /** Without a failed directory sync nothing is ever fatal, whatever else fails. */
  lemma {:induction false} SyncedIsNeverFatal<C(!new)>(events: seq<Event<C>>)
    requires forall j :: 0 <= j < |events| ==> !SyncFails(events[j])
    ensures NeverFatal(events)
  {
    forall j | 0 <= j <= |events| ensures !Fatal(After(events[..j])) {
      StaysInSync(events, j);
    }
  }

  lemma {:induction false} StaysInSync<C(!new)>(events: seq<Event<C>>, n: nat)
    requires n <= |events| && forall j :: 0 <= j < |events| ==> !SyncFails(events[j])
    ensures After(events[..n]).sync == InSync
  {
    if n > 0 {
      StaysInSync(events, n - 1);
      NextAfter(events, n - 1);
    }
  }

  /** The event during which a moment was noted. */
  lemma {:induction false} EventOf<D,
      C(!new)>(s: Semantics<D, C>, d: D, events: seq<Event<C>>, past: seq<Moment<D, C>>, marks: seq<nat>, i: nat, n: nat)
    returns (j: nat)
    requires Told(s, d, events, past, marks) && n <= |events| && marks[0] <= i < marks[n]
    ensures j < n && marks[j] <= i < marks[j + 1]
  {
    hide ToldAt;
    j := n - 1;
    if i < marks[j] {
      j := EventOf(s, d, events, past, marks, i, j);
    }
  }

  /**
    A crash between any two calls: the directory is one call after the moment before, it is that of
    the commands flushed by the end of the event, and a start-up rebuilds them unless a failed directory
    sync left the manifest fatal.
  */
  lemma CrashAt<D, C(!new)>(s: Semantics<D, C>, d: D, events: seq<Event<C>>, past: seq<Moment<D, C>>, marks: seq<nat>,
      i: nat) returns (j: nat)
    requires Told(s, d, events, past, marks) && marks[0] <= i < |past|
    ensures j < |events| && marks[j] <= i < marks[j + 1]
    ensures i > 0 && past[i].disk == Do(past[i - 1].disk, past[i].call)
    ensures var before, after := After(events[..j]), After(events[..j + 1]);
      && after.flushed <= |after.cmds| && past[i].flushed == Dataset(s, d, after)
      && (!Fatal(before) && !Fatal(after) ==> Bootable(s, past[i].disk, past[i].flushed))
      && (Fatal(before) && Fatal(after) ==> !Bootable(s, past[i].disk, past[i].flushed))
      && (i == marks[j + 1] - 1 ==> (Bootable(s, past[i].disk, past[i].flushed) <==> !Fatal(after)))
  {
    hide Fatal, Dataset, Bootable, Do;
    j := EventOf(s, d, events, past, marks, i, |events|);
    assert ToldAt(s, d, events, past, marks, j);
    var window := past[..marks[j + 1]];
    assert window[i] == past[i];
    assert Decided(s, window[i], Fatal(After(events[..j])), Fatal(After(events[..j + 1])));
  }

  /**
    Every crash of a run is survived, with exactly the commands flushed by then, if and only
    if no failed directory sync ever left the manifest fatal.
  */
  lemma SurvivesIff<D, C(!new)>(s: Semantics<D, C>, d: D, events: seq<Event<C>>, past: seq<Moment<D, C>>, marks: seq<nat>)
    requires Told(s, d, events, past, marks)
    ensures AllRebuilt(s, past, marks[0]) <==> NeverFatal(events)
  {
    hide Fatal, Dataset, Bootable, ToldAt, After;
    if NeverFatal(events) {
      forall i | marks[0] <= i < |past| ensures Bootable(s, past[i].disk, past[i].flushed) {
        var j := CrashAt(s, d, events, past, marks, i);
        var j' := j + 1;
        assert !Fatal(After(events[..j])) && !Fatal(After(events[..j']));
      }
    } else {
      var n :| 0 <= n <= |events| && Fatal(After(events[..n]));
      var i := FatalMoment(s, d, events, past, marks, n);
    }
  }

  /** When the manifest is fatal, some moment of the run cannot be rebuilt. */
  lemma {:induction false} FatalMoment<D,
      C(!new)>(s: Semantics<D, C>, d: D, events: seq<Event<C>>, past: seq<Moment<D, C>>, marks: seq<nat>, n: nat)
    returns (i: nat)
    requires Told(s, d, events, past, marks) && n <= |events| && Fatal(After(events[..n]))
    ensures marks[0] <= i < |past| && !Bootable(s, past[i].disk, past[i].flushed)
  {
    hide Dataset, Bootable, Next;
    assert n > 0;
    var m := n - 1;
    assert ToldAt(s, d, events, past, marks, m);
    if marks[m] < marks[n] {
      i := marks[n] - 1;
      MarksGrow(s, d, events, past, marks, m);
      var window := past[..marks[n]];
      assert window[|window| - 1] == past[i];
    } else {
      i := FatalMoment(s, d, events, past, marks, m);
    }
  }

  lemma {:induction false} MarksGrow<D,
      C(!new)>(s: Semantics<D, C>, d: D, events: seq<Event<C>>, past: seq<Moment<D, C>>, marks: seq<nat>, n: nat)
    requires Told(s, d, events, past, marks) && n <= |events|
    ensures marks[0] <= marks[n]
  {
    if n > 0 {
      MarksGrow(s, d, events, past, marks, n - 1);
      assert ToldAt(s, d, events, past, marks, n - 1);
    }
  }

  /**
    A crash during event j leaves the directory of that moment. Unless the manifest was fatal before or
    after the event, a start-up gives a server that holds the commands flushed by then, ready for the next run.
  */
  method CrashAndRestart<D(!new), C(!new)>(server: Server<D, C>, ghost d: D, ghost events: seq<Event<C>>, ghost marks: seq<nat>,
                                           ghost j: nat, ghost i: nat, left: Disk<D, C>, pid: nat, gc: bool, p2: Persist)
    returns (next: Server<D, C>, ghost boot: seq<Moment<D, C>>)
    requires Told(server.sem, d, events, server.past, marks) && j < |events| && marks[j] <= i < marks[j + 1] <= |server.past|
    requires left == server.past[i].disk && !Fatal(After(events[..j])) && !Fatal(After(events[..j + 1]))
    ensures fresh(next) && next.sem == server.sem && Follows(next, next.data, Begin())
    ensures AllRebuild(server.sem, boot, next.data) && boot[0].disk == left && boot[|boot| - 1].disk == next.disk
    ensures var k := After(events[..j + 1]); k.flushed <= |k.cmds| && next.data == Dataset(server.sem, d, k)
  {
    hide Fatal, Dataset, Bootable, After, Content, Shape, AllRebuild, Complete;
    ghost var past := server.past;
    assert ToldAt(server.sem, d, events, past, marks, j);
    ghost var window := past[..marks[j + 1]];
    assert window[i] == past[i] && Decided(server.sem, window[i], false, false);
    next, boot := Restart(server.sem, left, Dataset(server.sem, d, After(events[..j + 1])), pid, gc, p2);
    AtStart(next);
  }

  lemma AtStart<D(!new), C(!new)>(server: Server<D, C>)
    requires server.Formed() && server.Durable() && server.buf == [] && server.child == None &&
        server.sync == InSync && !server.partial
    requires server.data == server.flushed
    ensures Follows(server, server.data, Begin())
  {
  }
}
