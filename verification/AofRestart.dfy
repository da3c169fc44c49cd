/**
  Start-up after a crash, and what the append-only directory does and does not
  survive over whole runs.
*/
module AofRestart {
  import opened Common
  import opened AofDisk
  import opened AofManifest

  /** A complete history in which every moment rebuilds d. */
  ghost predicate AllRebuild<D, C>(s: Semantics<D, C>, past: seq<Moment<D, C>>, d: D) {
    && past != [] && Complete(past)
    && forall i :: 0 <= i < |past| ==> past[i].flushed == d && Bootable(s, past[i].disk, d)
  }

  lemma AllRebuildMore<D, C>(s: Semantics<D, C>, past: seq<Moment<D, C>>, call: Call<D, C>, d: D)
    requires AllRebuild(s, past, d) && Bootable(s, Do(past[|past| - 1].disk, call), d)
    ensures AllRebuild(s, past + [Moment(Do(past[|past| - 1].disk, call), d, call)], d)
  {
    hide Bootable, Do;
  }

  lemma RebuildFirst<D, C>(s: Semantics<D, C>, disk: Disk<D, C>, d: D)
    requires Bootable(s, disk, d)
    ensures AllRebuild(s, [Moment(disk, d, Nothing)], d)
  {
    hide Bootable, Do;
  }

  /** Loading cuts the end off a torn last file. */
  function TrimLast<D, C>(disk: Disk<D, C>): (call: Call<D, C>) {
    if disk.listing.incrs != [] then Trim(Incr(IncrSeq(disk.listing))) else Nothing
  }

  lemma TrimmedLoads<D, C>(s: Semantics<D, C>, disk: Disk<D, C>, d: D)
    requires Bootable(s, disk, d)
    ensures var disk' := Do(disk, TrimLast(disk)); var am := FromListing(disk.listing);
      && Bootable(s, disk', d) && disk'.listing == disk.listing
      && (disk.listing.incrs != [] ==> Current(disk', am) && !Torn(disk', am))
  {
    var l := disk.listing;
    if l.incrs != [] {
      LoadAppend(s, disk.files, l.base, l.incrs, [], false);
      assert disk.files[Incr(IncrSeq(l))].cmds + [] == disk.files[Incr(IncrSeq(l))].cmds;
    }
  }

  /** A directory with its last file is what a server starts from. */
  lemma LastOpened<D, C>(s: Semantics<D, C>, disk: Disk<D, C>, d: D)
    requires var am := FromListing(disk.listing);
        Bootable(s, disk, d) && disk.listing.incrs != [] && Current(disk, am) && !Torn(disk, am)
    ensures Shape(disk, FromListing(disk.listing), InSync) && Content(s, disk, FromListing(disk.listing), None, false, d)
  {
  }

  // ----- A directory without INCR files -----

  lemma NoHistoryWithoutBase(l: Listing)
    requires WellFormed(l) && l.incrs == [] && l.base.None?
    ensures l.history == []
  {
    assert l.history == [] || Older(l, l.history[0]);
  }

  /** A missing BASE is written under a temporary name, which changes nothing yet, and so does its renaming. */
  lemma BaseSaved<D, C>(s: Semantics<D, C>, disk: Disk<D, C>, pid: nat, d: D)
    requires Bootable(s, disk, d) && disk.listing.base.None? && disk.listing.incrs == []
    ensures var disk1 := Do(disk, Save(pid, d)); var disk2 := Do(disk1, Rename(Temp(pid), Base(1)));
      && Bootable(s, disk1, d) && Bootable(s, disk2, d) && disk2.listing == disk.listing
      && Base(1) in disk2.files && disk2.files[Base(1)] == Snapshot(d)
  {
  }

  /** The manifest that a start-up gives to a directory without INCR files. */
  function FirstManifest(l: Listing): (am: Manifest) {
    AddIncr(if l.base.None? then NewBase(FromListing(l)) else FromListing(l))
  }

  lemma FirstManifestTidy(l: Listing)
    requires WellFormed(l) && l.incrs == []
    ensures var am := FirstManifest(l); Tidy(am.(dirty := false)) && am.listing.incrs == [1] && am.currIncr == 1
  {
    if l.base.None? {
      NoHistoryWithoutBase(l);
    }
  }

  /** The first INCR is opened, and the manifest that lists it takes over. */
  lemma FirstIncrLoads<D, C>(s: Semantics<D, C>, disk: Disk<D, C>, d: D)
    requires Bootable(s, disk, d) && disk.listing.incrs == []
    requires disk.listing.base.None? ==> Base(1) in disk.files && disk.files[Base(1)] == Snapshot(d)
    ensures var disk1 := Do(disk, Open(Incr(1))); var am := FirstManifest(disk.listing);
      var disk2 := Do(disk1, Replace(am.listing));
      && Bootable(s, disk1, d) && Bootable(s, disk2, d)
      && Shape(disk2, am.(dirty := false), InSync) && Content(s, disk2, am.(dirty := false), None, false, d)
      && disk2 == disk1.(listing := am.listing) && am.dirty
  {
    hide Fold;
    var disk1, am := Do(disk, Open(Incr(1))), FirstManifest(disk.listing);
    FirstManifestTidy(disk.listing);
    assert LoadBase(s, disk1.files, disk.listing.base) == LoadBase(s, disk1.files, am.listing.base) == Ok(d);
    OneEmptyIncr(s, disk1.files, am.listing.base, d);
  }

  lemma OneEmptyIncr<D, C>(s: Semantics<D, C>, files: map<Name, File<D, C>>, base: Option<nat>, d: D)
    requires Incr(1) in files && files[Incr(1)] == Log([], false) && LoadBase(s, files, base) == Ok(d)
    ensures Load(s, files, base, [1]) == Ok(d)
  {
    assert [1][..0] == [];
  }

  /**
    loadDataFromDisk and aofOpenIfNeededOnServerStart. Whether or not the manifest
    can be written, every directory on the way still rebuilds the same dataset.
  */
  method Boot<D, C>(s: Semantics<D, C>, disk0: Disk<D, C>, pid: nat, p: Persist, ghost d: D)
    returns (ok: bool, disk: Disk<D, C>, am: Manifest, data: D, ghost past: seq<Moment<D, C>>)
    requires Bootable(s, disk0, d)
    ensures data == d && AllRebuild(s, past, d) && past[0].disk == disk0 && past[|past| - 1].disk == disk
    ensures ok ==> Shape(disk, am, InSync) && Content(s, disk, am, None, false, d)
    ensures p == Written || disk0.listing.incrs != [] ==> ok
  {
    hide Bootable, AllRebuild, Shape, Content, Do;
    BootableLoads(s, disk0, d);
    var r := LoadFiles(s, disk0);
    data, disk := r.d, disk0;
    RebuildFirst(s, disk, d);
    past := [Moment(disk, d, Nothing)];
    TrimmedLoads(s, disk, d);
    AllRebuildMore(s, past, TrimLast(disk), d);
    past := past + [Moment(Do(disk, TrimLast(disk)), d, TrimLast(disk))];
    disk := Do(disk, TrimLast(disk));
    am := FromListing(disk.listing);
    if disk.listing.incrs != [] {
      LastOpened(s, disk, d);
      return !am.dirty || p == Written, disk, am, data, past;
    }
    if disk.listing.base.None? {
      BaseSaved(s, disk, pid, d);
      disk, past := Called(s, disk, Save(pid, data), d, past);
      disk, past := Called(s, disk, Rename(Temp(pid), Base(1)), d, past);
    }
    FirstIncrLoads(s, disk, d);
    am := FirstManifest(disk.listing);
    disk, past := Called(s, disk, Open(Incr(1)), d, past);
    PersistingDoes(disk, am, p);
    disk, past := Called(s, disk, Persisting(am, p), d, past);
    ok, am := p == Written, am.(dirty := false);
  }

  /** One call of a start-up. */
  method Called<D, C>(s: Semantics<D, C>, disk: Disk<D, C>, call: Call<D, C>, ghost d: D, ghost past: seq<Moment<D, C>>)
    returns (disk': Disk<D, C>, ghost past': seq<Moment<D, C>>)
    requires past != [] && past[|past| - 1].disk == disk && AllRebuild(s, past, d) && Bootable(s, Do(disk, call), d)
    ensures disk' == Do(disk, call) && past' == past + [Moment(disk', d, call)] && AllRebuild(s, past', d)
  {
    hide AllRebuild, Bootable, Do;
    AllRebuildMore(s, past, call, d);
    disk', past' := Do(disk, call), past + [Moment(Do(disk, call), d, call)];
  }

  lemma BootableLoads<D, C>(s: Semantics<D, C>, disk: Disk<D, C>, d: D)
    requires Bootable(s, disk, d)
    ensures LoadDisk(s, disk) == Ok(d)
  {
  }

  // ----- After a crash -----

  /**
    A crash leaves a directory: if a start-up can rebuild d from it, it gives a server that holds d,
    and so does a start-up after a crash of the start-up.
  */
  method Restart<D(!new), C(!new)>(sem: Semantics<D, C>, left: Disk<D, C>, ghost d: D, pid: nat, gc: bool,
      p2: Persist) returns (next: Server<D, C>, ghost boot: seq<Moment<D, C>>)
    requires Bootable(sem, left, d)
    ensures fresh(next) && next.sem == sem && next.Formed() && next.Durable()
    ensures next.data == next.flushed == d && next.buf == [] && next.child == None && next.sync == InSync && !next.partial
    ensures AllRebuild(sem, boot, d) && boot[0].disk == left && boot[|boot| - 1].disk == next.disk
  {
    hide Content, Shape, AllRebuild, Bootable, Noted, Complete, Do;
    var ok, disk, am, data, past := Boot(sem, left, pid, Written, d);
    next := new Server(sem, disk, am, data);
    ghost var first := next.past;
    next.DelHistory(gc, p2);
    assert next.past[..1] == first;
    boot := past + next.past[1..];
    assert past != [] by { RebuildNotEmpty(sem, past, d); }
    Rebuilding(sem, past, next.past, d);
  }

  lemma RebuildNotEmpty<D, C>(s: Semantics<D, C>, past: seq<Moment<D, C>>, d: D)
    requires AllRebuild(s, past, d)
    ensures past != []
  {
  }

  /** The clean-up goes on from where the start-up ends. */
  lemma Rebuilding<D, C>(s: Semantics<D, C>, boot: seq<Moment<D, C>>, past: seq<Moment<D, C>>, d: D)
    requires AllRebuild(s, boot, d) && past != [] && Complete(past) && Noted(s, past[..1], past, d, false, false)
    requires past[0].disk == boot[|boot| - 1].disk
    ensures AllRebuild(s, boot + past[1..], d) && (boot + past[1..])[|boot + past[1..]| - 1].disk == past[|past| - 1].disk
  {
    hide Bootable, Do;
    var all := boot + past[1..];
    forall i | 0 <= i < |all| ensures all[i].flushed == d && Bootable(s, all[i].disk, d) {
      if i >= |boot| {
        var k := i - |boot| + 1;
        assert all[i] == past[k] && Decided(s, past[k], false, false);
      }
    }
    forall i | 0 < i < |all| ensures all[i].disk == Do(all[i - 1].disk, all[i].call) {
      if i >= |boot| {
        var k := i - |boot| + 1;
        assert all[i] == past[k] && past[k].disk == Do(past[k - 1].disk, past[k].call);
        assert k > 1 ==> all[i - 1] == past[k - 1];
      }
    }
  }

  /**
    A rewrite whose manifest is renamed but whose directory sync fails leaves a manifest
    that names a removed BASE: nothing can be loaded, whatever the server held.
  */
  method UnsyncedRewriteIsFatal<D(!new), C(!new)>(server: Server<D, C>, pid: nat, gc: bool, p2: Persist)
    requires server.Formed() && server.child.None?
    modifies server
    ensures server.Formed() && (old(server.Durable()) ==> server.Durable())
    ensures server.sync == Dangling && LoadDisk(server.sem, server.disk) == Failed
  {
    hide Fold, Load, Noted, Content;
    var started := server.StartRewrite(|server.buf|, false, true, Written, true, pid);
    server.RewriteDone(true, true, Unsynced, gc, p2);
    BaseMissing(server.sem, server.disk.files, server.disk.listing.base, server.disk.listing.incrs);
  }

  /**
    When the same sync fails while a new INCR is opened, the server goes on writing to the
    last but one file that the manifest lists: a write cut short then stops every start-up.
  */
  method UnsyncedIncrThenTorn<D(!new), C(!new)>(server: Server<D, C>, n: nat) returns (ok: bool)
    requires server.Formed() && server.Durable() && server.child.None? && n < |server.buf|
    modifies server
    ensures server.Formed() && server.Durable()
    ensures !ok && server.sync == Ahead && LoadDisk(server.sem, server.disk) == Failed
  {
    hide Shape, Fold, Load, Noted;
    ok := server.OpenNewIncr(true, Unsynced);
    server.Flush(n, true);
    AheadTornFails(server.sem, server.disk, server.am, server.child, server.partial, server.flushed);
  }

  lemma AheadTornFails<D, C>(s: Semantics<D, C>, disk: Disk<D, C>, am: Manifest, child: Option<Child<D>>,
      partial: bool, flushed: D)
    requires Shape(disk, am, Ahead) && Content(s, disk, am, child, partial, flushed) && partial
    ensures LoadDisk(s, disk) == Failed
  {
    LoadExtend(s, disk.files, am.listing.base, am.listing.incrs, am.currIncr + 1);
  }

  /** A switch to a new INCR after a torn write is fatal at once: the torn file is no longer the last. */
  method TornSwitchIsFatal<D(!new), C(!new)>(server: Server<D, C>, n: nat) returns (ok: bool)
    requires server.Formed() && server.Durable() && server.child.None? && n < |server.buf|
    modifies server
    ensures server.Formed() && server.sync == InSync && LoadDisk(server.sem, server.disk) == Failed
  {
    hide Shape, Fold, Load, Noted, Content, UpTo, Do;
    server.Flush(n, true);
    ghost var disk, am, flushed, sync := server.disk, server.am, server.flushed, server.sync;
    ok := server.OpenNewIncr(true, Written);
    TornThenNext(server.sem, disk, am, server.child, flushed, sync, server.disk);
  }

  lemma TornThenNext<D, C>(s: Semantics<D, C>, disk: Disk<D, C>, am: Manifest, child: Option<Child<D>>, flushed: D,
      sync: Sync, disk': Disk<D, C>)
    requires Shape(disk, am, sync) && Content(s, disk, am, child, true, flushed)
    requires disk'.files == disk.files[Incr(am.currIncr + 1) := Log([], false)] && disk'.listing == AddIncr(am).listing
    ensures LoadDisk(s, disk') == Failed
  {
    NewIncrNotLive(am);
    ElsewhereKeepsContent(s, disk, disk', am, child, true, flushed, Incr(am.currIncr + 1));
    LoadExtend(s, disk'.files, am.listing.base, am.listing.incrs, am.currIncr + 1);
  }

  /** The next INCR whose manifest reaches the disk repairs it. */
  method NextIncrRepairs<D(!new), C(!new)>(server: Server<D, C>, p: Persist) returns (ok: bool)
    requires server.Formed() && server.Durable() && server.child.None? && server.sync == Dangling && !server.partial && p != Lost
    modifies server
    ensures server.Formed() && server.Durable()
    ensures LoadDisk(server.sem, server.disk) == Ok(server.flushed)
  {
    hide Content, Shape, Noted;
    ok := server.OpenNewIncr(true, p);
    NowOk(server.sem, server.disk, server.am, server.child, server.partial, server.flushed, server.sync);
    assert server.partial == Torn(server.disk, server.am) by { TornIsPartial(server); }
  }

  lemma TornIsPartial<D(!new), C(!new)>(server: Server<D, C>)
    requires server.Durable()
    ensures server.partial == Torn(server.disk, server.am)
  {
  }

  /**
    A rewrite that starts while whole commands are still in the buffer: the child has
    them in its snapshot and the new INCR gets them again, so they are applied twice.
  */
  method LeftoverIsReplayed<D(!new), C(!new)>(server: Server<D, C>, n: nat, pid: nat)
    requires server.Formed() && server.Durable() && server.child.None? && n <= |server.buf| && (server.partial ==> n > 0)
    modifies server
    ensures server.flushed == server.data == old(server.data) && server.buf == []
    ensures LoadDisk(server.sem, server.disk) == Ok(Fold(server.sem.apply, server.data, old(server.buf)[n..]))
  {
    hide Shape, Content, Noted, Fold, Load, Broken, Torn;
    ghost var left, data := server.buf[n..], server.data;
    FlushSplits(server, n);
    FormedMeans(server);
    var started := server.StartRewrite(n, false, true, Written, true, pid);
    FormedMeans(server);
    server.RewriteDone(true, true, Written, false, Written);
    FormedMeans(server);
    ghost var k := server.am.currIncr;
    assert server.disk.files[Incr(k)] == Log([], false);
    server.Flush(|server.buf|, false);
    FormedMeans(server);
    assert left[..|left|] == left && [] + left == left;
    ReplayOne(server.sem, server.disk.files, server.am.listing.base, server.am.currIncr, server.data, left);
  }

  lemma FlushSplits<D(!new), C(!new)>(server: Server<D, C>, n: nat)
    requires server.Durable() && n <= |server.buf|
    ensures Fold(server.sem.apply, Fold(server.sem.apply, server.flushed, server.buf[..n]), server.buf[n..]) == server.data
  {
    assert server.buf == server.buf[..n] + server.buf[n..];
    FoldAppend(server.sem.apply, server.flushed, server.buf[..n], server.buf[n..]);
  }

  lemma FormedMeans<D(!new), C(!new)>(server: Server<D, C>)
    requires server.Formed()
    ensures server.am.listing.incrs != [] && server.am.currIncr == server.am.listing.incrs[|server.am.listing.incrs| - 1]
    ensures server.sync == InSync ==>
      server.disk.listing.base == server.am.listing.base && server.disk.listing.incrs == server.am.listing.incrs
    ensures server.partial ==> server.buf != []
  {
  }

  lemma ReplayOne<D, C>(s: Semantics<D, C>, files: map<Name, File<D, C>>, base: Option<nat>, n: nat, d: D, cmds: seq<C>)
    requires base.Some? && Base(base.value) in files && files[Base(base.value)] == Snapshot(d)
    requires Incr(n) in files && files[Incr(n)] == Log(cmds, false)
    ensures Load(s, files, base, [n]) == Ok(Fold(s.apply, d, cmds))
  {
    assert [n][..0] == [];
  }

  /** For a dataset that counts its commands, such a rewrite is exact if and only if the forced flush emptied the buffer. */
  method LeftoverCounts<C(!new)>(server: Server<int, C>, n: nat, pid: nat)
    requires server.Formed() && server.Durable() && server.child.None? && n <= |server.buf| && (server.partial ==> n > 0)
    requires forall x, c :: server.sem.apply(x, c) == x + 1
    modifies server
    ensures server.flushed == server.data == old(server.data) && server.buf == []
    ensures LoadDisk(server.sem, server.disk) == Ok(server.data + |old(server.buf)| - n)
    ensures LoadDisk(server.sem, server.disk) == Ok(server.data) <==> n == |old(server.buf)|
  {
    hide Load;
    ghost var left := server.buf[n..];
    LeftoverIsReplayed(server, n, pid);
    Counted(server.sem.apply, server.data, left);
  }

  lemma {:induction false} Counted<C>(apply: (int, C) -> int, d: int, left: seq<C>)
    requires forall x, c :: apply(x, c) == x + 1
    ensures Fold(apply, d, left) == d + |left|
  {
    if left != [] {
      Counted(apply, d, left[..|left| - 1]);
    }
  }
}
