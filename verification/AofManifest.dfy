/**
  The server's side of the append-only directory: commands are appended to the last
  INCR file, a background rewrite replaces BASE, and the manifest is replaced by
  renames. Every state the directory passes through is kept in a ghost history,
  so that the theorems speak of a crash between any two steps.
*/
module AofManifest {
  import opened Common
  import opened AofDisk

  /** The manifest in memory. */
  datatype Manifest = Manifest(listing: Listing, currBase: nat, currIncr: nat, dirty: bool)

  /** The rewriting child holds the dataset of the moment it was forked. */
  datatype Child<D> = Child(pid: nat, snapshot: D)

  /**
    How writing the manifest ends: done, failed with the old file still in place, or
    failed after the rename, when only the directory could not be synced.
  */
  datatype Persist = Written | Lost | Unsynced

  /** The manifest on disk is the one in memory, lists one more empty INCR, or names a BASE that was removed. */
  datatype Sync = InSync | Ahead | Dangling

  /** The directory at one moment, the dataset of the commands flushed by then, and the call that led there. */
  datatype Moment<D, C> = Moment(disk: Disk<D, C>, flushed: D, call: Call<D, C>)

  // ----- System calls -----

  /**
    What changes a directory. Create and Open are the two ways to open a file for writing, with
    and without truncation; an Append may begin with the rest of a command; Save is the writing of
    a snapshot under a temporary name; Replace is the rename of a new manifest over the old one.
  */
  datatype Call<D, C> =
    | Nothing
    | Create(name: Name)
    | Open(name: Name)
    | Append(name: Name, cmds: seq<C>, torn: bool, rest: bool)
    | Trim(name: Name)
    | Save(pid: nat, d: D)
    | Rename(from: Name, to: Name)
    | Remove(name: Name)
    | Replace(listing: Listing)

  function Touched<D, C>(files: map<Name, File<D, C>>, call: Call<D, C>): (files': map<Name, File<D, C>>) {
    match call
    case Nothing => files
    case Create(name) => files[name := Log([], false)]
    case Open(name) => if name in files then files else files[name := Log([], false)]
    case Append(name, cmds, torn, rest) =>
      if name in files then files[name := Appended(files[name], cmds, torn, rest)] else files
    case Trim(name) => if name in files && files[name].Log? then files[name := Log(files[name].cmds, false)] else files
    case Save(pid, d) => files[Temp(pid) := Snapshot(d)]
    case Rename(from, to) => if from in files then (files - {from})[to := files[from]] else files
    case Remove(name) => files - {name}
    case Replace(_) => files
  }

  /** The directory after one call. */
  function Do<D, C>(disk: Disk<D, C>, call: Call<D, C>): (disk': Disk<D, C>) {
    Disk(Touched(disk.files, call), if call.Replace? then call.listing else disk.listing)
  }

  /** A history leaves nothing out: each moment is one call after the one before it. */
  ghost predicate Complete<D, C>(past: seq<Moment<D, C>>) {
    forall i :: 0 < i < |past| ==> past[i].disk == Do(past[i - 1].disk, past[i].call)
  }

  /** A complete history up to the present directory. */
  ghost predicate UpTo<D, C>(past: seq<Moment<D, C>>, disk: Disk<D, C>) {
    past != [] && past[|past| - 1].disk == disk && Complete(past)
  }

  /** The calls that a step adds to the history. */
  ghost function Calls<D, C>(before: seq<Moment<D, C>>, after: seq<Moment<D, C>>): (calls: seq<Call<D, C>>)
    requires |before| <= |after|
  {
    seq(|after| - |before|, i requires 0 <= i < |after| - |before| => after[|before| + i].call)
  }

  // ----- Names -----

  ghost predicate Increasing(incrs: seq<nat>) {
    && (forall i :: 0 <= i < |incrs| ==> incrs[i] >= 1)
    && (forall i, j :: 0 <= i < j < |incrs| ==> incrs[i] < incrs[j])
  }

  /** A history entry is older than everything live. */
  ghost predicate Older(l: Listing, name: Name) {
    match name
    case Base(m) => l.base.Some? && m < l.base.value
    case Incr(m) => l.incrs != [] && m < l.incrs[0]
    case Temp(_) => false
  }

  ghost predicate WellFormed(l: Listing) {
    && Increasing(l.incrs)
    && (forall i :: 0 <= i < |l.history| ==> Older(l, l.history[i]))
  }

  function BaseSeq(l: Listing): (n: nat) {
    if l.base.Some? then l.base.value else 0
  }

  function IncrSeq(l: Listing): (n: nat) {
    if l.incrs == [] then 0 else l.incrs[|l.incrs| - 1]
  }

  /** What a start-up reads back. */
  function FromListing(l: Listing): (am: Manifest) {
    Manifest(l, BaseSeq(l), IncrSeq(l), false)
  }

  ghost predicate Tidy(am: Manifest) {
    WellFormed(am.listing) && am.listing.incrs != [] && am.currBase == BaseSeq(am.listing) && am.currIncr == IncrSeq(am.listing)
  }

  /** getNewIncrAofName. */
  function AddIncr(am: Manifest): (am': Manifest) {
    am.(listing := am.listing.(incrs := am.listing.incrs + [am.currIncr + 1]), currIncr := am.currIncr + 1, dirty := true)
  }

  /** getNewBaseFileNameAndMarkPreAsHistory. */
  function NewBase(am: Manifest): (am': Manifest) {
    var history := (if am.listing.base.Some? then [Base(am.listing.base.value)] else []) + am.listing.history;
    am.(listing := am.listing.(base := Some(am.currBase + 1), history := history), currBase := am.currBase + 1, dirty := true)
  }

  function Incrs(ns: seq<nat>): (names: seq<Name>)
    ensures |names| == |ns| && forall i :: 0 <= i < |ns| ==> names[i] == Incr(ns[i])
  {
    seq(|ns|, i requires 0 <= i < |ns| => Incr(ns[i]))
  }

  /** markRewrittenIncrAofAsHistory with the AOF enabled: all but the last INCR move to the head of the history. */
  method MarkRewritten(am: Manifest) returns (am': Manifest)
    requires am.listing.incrs != []
    ensures var l := am.listing;
      am' == am.(listing := l.(incrs := l.incrs[|l.incrs| - 1..],
        history := Incrs(l.incrs[..|l.incrs| - 1]) + l.history), dirty := true)
  {
    var incrs, history := am.listing.incrs, am.listing.history;
    var i := |incrs| - 1;
    while i > 0
      invariant 0 <= i < |incrs| == |am.listing.incrs| - (|am.listing.incrs| - 1 - i)
      invariant incrs == am.listing.incrs[..i] + [am.listing.incrs[|am.listing.incrs| - 1]]
      invariant history == Incrs(am.listing.incrs[i..|am.listing.incrs| - 1]) + am.listing.history
    {
      i := i - 1;
      history := [Incr(incrs[i])] + history;
      incrs := incrs[..i] + incrs[i + 1..];
      assert am.listing.incrs[i..|am.listing.incrs| - 1] == [am.listing.incrs[i]] +
          am.listing.incrs[i + 1..|am.listing.incrs| - 1];
    }
    am' := am.(listing := am.listing.(incrs := incrs, history := history), dirty := true);
  }

  /** persistAofManifest: a manifest that has not changed is not written. */
  function Persisting<D, C>(am: Manifest, p: Persist): (call: Call<D, C>) {
    if !am.dirty || p == Lost then Nothing else Replace(am.listing)
  }

  lemma PersistingDoes<D, C>(disk: Disk<D, C>, am: Manifest, p: Persist)
    requires am.dirty
    ensures Do(disk, Persisting(am, p)) == if p == Lost then disk else disk.(listing := am.listing)
  {
  }

  lemma FileCallsDo<D, C>(disk: Disk<D, C>, name: Name)
    ensures Do(disk, Create(name)) == disk.(files := disk.files[name := Log([], false)])
    ensures Do(disk, Remove(name)) == disk.(files := disk.files - {name})
  {
  }

  // ----- Directories that load -----

  /** A manifest knows of a file: it is live or history, or has the number that the next file of its kind will get. */
  ghost predicate Known(am: Manifest, name: Name) {
    match name
    case Base(n) => am.listing.base == Some(n) || name in am.listing.history || n == am.currBase + 1
    case Incr(n) => n in am.listing.incrs || name in am.listing.history || n == am.currIncr + 1
    case Temp(_) => true
  }

  /** No BASE and no INCR is forgotten in the directory. */
  ghost predicate Tracked<D, C>(files: map<Name, File<D, C>>, am: Manifest) {
    forall name :: name in files ==> Known(am, name)
  }

  /** A start-up accepts the directory and rebuilds d, and no file is forgotten. */
  ghost predicate Bootable<D, C>(s: Semantics<D, C>, disk: Disk<D, C>, d: D) {
    && WellFormed(disk.listing) && Tracked(disk.files, FromListing(disk.listing))
    && (disk.listing.incrs == [] && Incr(1) in disk.files ==> disk.files[Incr(1)] == Log([], false))
    && LoadDisk(s, disk) == Ok(d)
  }

  /**
    The moments that a step adds: each belongs to the dataset flushed by then, and whether a
    start-up rebuilds it is decided by the risk before the step or by the one after it; at
    the last of them, by the one after it.
  */
  ghost predicate Noted<D, C>(s: Semantics<D, C>, before: seq<Moment<D, C>>, after: seq<Moment<D, C>>, flushed: D,
      risk0: bool, risk1: bool) {
    && before <= after
    && (forall i :: |before| <= i < |after| ==> after[i].flushed == flushed && Decided(s, after[i], risk0, risk1))
    && (|before| < |after| ==> (Bootable(s, after[|after| - 1].disk, flushed) <==> !risk1))
    && (|before| == |after| ==> risk0 == risk1)
  }

  ghost predicate Decided<D, C>(s: Semantics<D, C>, m: Moment<D, C>, risk0: bool, risk1: bool) {
    var rebuilt := Bootable(s, m.disk, m.flushed);
    rebuilt == !risk0 || rebuilt == !risk1
  }

  lemma NotedNothing<D, C>(s: Semantics<D, C>, past: seq<Moment<D, C>>, flushed: D, risk: bool)
    ensures Noted(s, past, past, flushed, risk, risk)
  {
  }

  /** A step of two parts. */
  lemma NotedTwice<D, C>(s: Semantics<D, C>, a: seq<Moment<D, C>>, b: seq<Moment<D, C>>, c: seq<Moment<D, C>>,
      flushed: D, risk0: bool, risk1: bool, risk2: bool)
    requires Noted(s, a, b, flushed, risk0, risk1) && Noted(s, b, c, flushed, risk1, risk2) && (risk1 == risk0 || risk1 == risk2)
    ensures Noted(s, a, c, flushed, risk0, risk2)
  {
    hide Bootable;
    forall i | |a| <= i < |c| ensures c[i].flushed == flushed && Decided(s, c[i], risk0, risk2) {
      if i < |b| {
        assert c[i] == b[i];
      }
    }
    if |b| == |c| {
      assert b == c;
    }
  }

  ghost predicate Linked<D, C>(disk: Disk<D, C>, am: Manifest, sync: Sync) {
    match sync
    case InSync =>
      && disk.listing.base == am.listing.base && disk.listing.incrs == am.listing.incrs
      && forall name :: name in am.listing.history ==> name in disk.listing.history
    case Ahead =>
      && disk.listing.base == am.listing.base && disk.listing.incrs == am.listing.incrs + [am.currIncr + 1]
      && (forall name :: name in am.listing.history ==> name in disk.listing.history)
      && Incr(am.currIncr + 1) in disk.files && disk.files[Incr(am.currIncr + 1)] == Log([], false)
    case Dangling => disk.listing.base == Some(am.currBase + 1) && Base(am.currBase + 1) !in disk.files
  }

  /** The file that commands go to is there. */
  ghost predicate Current<D, C>(disk: Disk<D, C>, am: Manifest) {
    Incr(am.currIncr) in disk.files && !disk.files[Incr(am.currIncr)].Snapshot?
  }

  ghost predicate Torn<D, C>(disk: Disk<D, C>, am: Manifest) {
    Incr(am.currIncr) in disk.files && disk.files[Incr(am.currIncr)].Log? && disk.files[Incr(am.currIncr)].torn
  }

  ghost predicate Broken<D, C>(disk: Disk<D, C>, am: Manifest, sync: Sync) {
    sync == Dangling || (sync == Ahead && Torn(disk, am))
  }

  ghost predicate Shape<D, C>(disk: Disk<D, C>, am: Manifest, sync: Sync) {
    && Tidy(am) && WellFormed(disk.listing) && (sync != Dangling ==> disk.listing.incrs != [])
    && Linked(disk, am, sync) && Current(disk, am) && Tracked(disk.files, am)
  }

  /** What memory lists rebuilds the flushed commands; so does the child's snapshot with the last INCR. */
  ghost predicate Content<D, C>(s: Semantics<D, C>, disk: Disk<D, C>, am: Manifest, child: Option<Child<D>>,
      partial: bool, flushed: D) {
    && Load(s, disk.files, am.listing.base, am.listing.incrs) == Ok(flushed)
    && Torn(disk, am) == partial
    && (child.Some? ==> Replay(s, disk.files, am.currIncr, true, Ok(child.value.snapshot)) == Ok(flushed))
  }

  /** The state of the directory and the memory decide whether a crash now is survived. */
  lemma NowOk<D, C>(s: Semantics<D, C>, disk: Disk<D, C>, am: Manifest, child: Option<Child<D>>, partial: bool,
      flushed: D, sync: Sync)
    requires Shape(disk, am, sync) && Content(s, disk, am, child, partial, flushed)
    ensures Bootable(s, disk, flushed) <==> !Broken(disk, am, sync)
  {
    match sync
    case InSync =>
    case Ahead => LoadExtend(s, disk.files, am.listing.base, am.listing.incrs, am.currIncr + 1);
    case Dangling => BaseMissing(s, disk.files, disk.listing.base, disk.listing.incrs);
  }

  lemma BaseMissing<D, C>(s: Semantics<D, C>, files: map<Name, File<D, C>>, base: Option<nat>, incrs: seq<nat>)
    requires base.Some? && Base(base.value) !in files
    ensures Load(s, files, base, incrs) == Failed
  {
    LoadFailed(s, files, incrs, LoadBase(s, files, base));
  }

  // ----- Changes to files that memory does not list -----

  lemma IncrsBelow(am: Manifest, n: nat)
    requires Tidy(am) && n in am.listing.incrs
    ensures am.listing.incrs[0] <= n <= am.currIncr
  {
  }

  lemma NewIncrNotLive(am: Manifest)
    requires Tidy(am)
    ensures !Live(am.listing.base, am.listing.incrs, Incr(am.currIncr + 1))
  {
    if am.currIncr + 1 in am.listing.incrs {
      IncrsBelow(am, am.currIncr + 1);
    }
  }

  lemma OlderNotLive(l: Listing, name: Name)
    requires WellFormed(l) && Older(l, name)
    ensures !Live(l.base, l.incrs, name)
  {
  }

  /** Creating, replacing or removing a file that memory does not list. */
  ghost predicate Elsewhere<D, C>(files: map<Name, File<D, C>>, files': map<Name, File<D, C>>, name: Name) {
    forall other :: other != name ==> Agree(files, files', other)
  }

  lemma ElsewhereKeepsContent<D, C>(s: Semantics<D, C>, disk: Disk<D, C>, disk': Disk<D, C>, am: Manifest,
      child: Option<Child<D>>,
                                    partial: bool, flushed: D, name: Name)
    requires Tidy(am) && Current(disk, am) && Elsewhere(disk.files, disk'.files, name) &&
        !Live(am.listing.base, am.listing.incrs, name)
    ensures Current(disk', am) && Torn(disk', am) == Torn(disk, am)
    ensures Content(s, disk, am, child, partial, flushed) ==> Content(s, disk', am, child, partial, flushed)
  {
    assert Live(am.listing.base, am.listing.incrs, Incr(am.currIncr));
    assert Agree(disk.files, disk'.files, Incr(am.currIncr));
    LoadSame(s, disk.files, disk'.files, am.listing.base, am.listing.incrs);
  }

  // ----- The server -----

  class Server<D(!new), C(!new)> {
    const sem: Semantics<D, C>
    var disk: Disk<D, C>
    var am: Manifest
    var child: Option<Child<D>>
    var data: D
    /** Commands not yet written; when partial, the first of them is partly in a file. */
    var buf: seq<C>
    var partial: bool
    ghost var flushed: D
    ghost var sync: Sync
    ghost var past: seq<Moment<D, C>>

    /** A server that has loaded its directory and opened the last INCR. */
    constructor (sem: Semantics<D, C>, disk: Disk<D, C>, am: Manifest, data: D)
      requires Shape(disk, am, InSync) && Content(sem, disk, am, None, false, data)
      ensures Formed() && Durable() && fresh(this)
      ensures this.sem == sem && this.disk == disk && this.am == am && this.data == data && flushed == data
      ensures child == None && buf == [] && !partial && sync == InSync
      ensures past == [Moment(disk, data, Nothing)] && Bootable(sem, disk, data)
    {
      this.sem, this.disk, this.am, this.data := sem, disk, am, data;
      child, buf, partial := None, [], false;
      flushed, sync := data, InSync;
      past := [Moment(disk, data, Nothing)];
      NowOk(sem, disk, am, None, false, data, InSync);
    }

    ghost predicate Formed()
      reads this
    {
      Shaped() && UpTo(past, disk)
    }

    ghost predicate Shaped()
      reads this
    {
      Shape(disk, am, sync) && (child.Some? ==> sync == InSync) && (partial ==> buf != [])
    }

    /** The directory holds what was flushed, and the buffer the rest. */
    ghost predicate Durable()
      reads this
    {
      data == Fold(sem.apply, flushed, buf) && Content(sem, disk, am, child, partial, flushed)
    }

    /** A manifest was renamed whose directory sync failed, and it names a removed BASE or a torn file before the last. */
    ghost predicate Risky()
      reads this
    {
      sync == Dangling || (sync == Ahead && partial)
    }

    /** Keeps the state of the directory after a call in the history. */
    ghost method Note(call: Call<D, C>, risk: bool)
      requires past != [] && Complete(past) && disk == Do(past[|past| - 1].disk, call)
      modifies this`past
      ensures past == old(past) + [Moment(disk, flushed, call)] && UpTo(past, disk)
      ensures Shaped() && Durable() ==> Noted(sem, old(past), past, flushed, risk, Risky())
    {
      hide Content, Shape, Bootable, Do;
      if Shaped() && Durable() {
        NowOk(sem, disk, am, child, partial, flushed, sync);
        RiskIs(sem, disk, am, child, partial, flushed, sync);
      }
      past := past + [Moment(disk, flushed, call)];
    }

    /** A command changes the dataset and is fed to the buffer. */
    method Execute(c: C)
      requires Formed()
      modifies this`data, this`buf
      ensures Formed() && (old(Durable()) ==> Durable())
      ensures data == sem.apply(old(data), c) && buf == old(buf) + [c]
    {
      hide Content, Shape;
      data := sem.apply(data, c);
      buf := buf + [c];
      assert buf[..|buf| - 1] == old(buf);
    }

    /** A flush writes n whole commands and possibly part of the next. */
    method Flush(n: nat, torn: bool)
      requires Formed() && n <= |buf| && (torn ==> n < |buf|) && (partial && n == 0 ==> torn)
      modifies this`disk, this`buf, this`partial, this`flushed, this`past
      ensures Formed() && (old(Durable()) ==> Durable() && Noted(sem, old(past), past, flushed, old(Risky()), Risky()))
      ensures buf == old(buf)[n..] && partial == torn && flushed == Fold(sem.apply, old(flushed), old(buf)[..n])
      ensures past == old(past) + [Moment(disk, flushed, Append(Incr(am.currIncr), old(buf)[..n], torn, old(partial)))]
      ensures disk.listing == old(disk).listing
      ensures disk.files == old(disk).files[Incr(am.currIncr) := Appended(old(disk).files[Incr(am.currIncr)],
          old(buf)[..n], torn, old(partial))]
    {
      hide Noted, Bootable;
      ghost var durable, risk := Durable(), Risky();
      var name := Incr(am.currIncr);
      var call := Append(name, buf[..n], torn, partial);
      disk := Do(disk, call);
      flushed := Fold(sem.apply, flushed, buf[..n]);
      buf, partial := buf[n..], torn;
      AppendKeepsShape(old(disk), disk, am, sync, disk.files[name]);
      if durable {
        assert old(buf) == old(buf)[..n] + buf;
        FoldAppend(sem.apply, old(flushed), old(buf)[..n], buf);
        AppendKeepsContent(sem, old(disk), disk, am, child, old(partial), old(flushed), old(buf)[..n], torn);
      }
      Note(call, risk);
    }

    /** openNewIncrAofForAppend with the AOF on. */
    method OpenNewIncr(created: bool, p: Persist) returns (ok: bool)
      requires Formed() && child.None?
      modifies this`disk, this`am, this`sync, this`past
      ensures Formed() && old(past) <= past
      ensures Calls(old(past), past) == if created then
          [Create(Incr(old(am).currIncr + 1)), Persisting(AddIncr(old(am)), p)] else []
      ensures old(Durable()) && (ok ==> !partial) ==> Durable() && Noted(sem, old(past), past, flushed, old(Risky()), Risky())
      ensures ok <==> created && p == Written
      ensures disk.files == if created then old(disk).files[Incr(old(am).currIncr + 1) := Log([], false)] else old(disk).files
      ensures ok ==> am == AddIncr(old(am)).(dirty := false) && disk.listing == am.listing
      ensures !ok ==> am == old(am)
      ensures sync == if created && p == Unsynced then Ahead else if ok then InSync else old(sync)
    {
      hide Content, Shape, Noted, Bootable, Complete, Do, Persisting;
      ghost var risk := Risky();
      if !created {
        NotedNothing(sem, past, flushed, risk);
        return false;
      }
      var am' := AddIncr(am);
      NewIncrKeeps(sem, disk, am, child, partial, flushed, sync);
      var create := Create(Incr(am'.currIncr));
      FileCallsDo(disk, Incr(am'.currIncr));
      disk := Do(disk, create);
      Note(create, risk);
      ghost var between := past;
      AddIncrKeeps(sem, disk, am, partial, flushed, sync);
      var replace := Persisting(am', p);
      PersistingDoes(disk, am', p);
      disk := Do(disk, replace);
      if p == Written {
        am, sync := am'.(dirty := false), InSync;
      } else if p == Unsynced {
        sync := Ahead;
      }
      Note(replace, risk);
      if old(Durable()) && (p == Written ==> !partial) {
        NotedTwice(sem, old(past), between, past, flushed, risk, risk, Risky());
      }
      return p == Written;
    }

    /** rewriteAppendOnlyFileBackground: a forced flush, a new INCR, and a fork. */
    method StartRewrite(n: nat, torn: bool, created: bool, p: Persist, forked: bool, pid: nat) returns (ok: bool)
      requires Formed() && n <= |buf| && (torn ==> n < |buf|) && (partial && n == 0 ==> torn)
      modifies this`disk, this`am, this`child, this`buf, this`partial, this`flushed, this`sync, this`past
      ensures Formed() && old(past) <= past
      ensures old(Durable()) && (created && p == Written ==> !torn && (forked ==> n == |old(buf)|)) ==>
          Durable() && Noted(sem, old(past), past, flushed, old(Risky()), Risky())
      ensures ok <==> old(child).None? && created && p == Written && forked
      ensures child == if ok then Some(Child(pid, data)) else old(child)
      ensures if old(child).None? then buf == old(buf)[n..] &&
          flushed == Fold(sem.apply, old(flushed), old(buf)[..n]) && partial == torn
        else buf == old(buf) && flushed == old(flushed) && partial == old(partial)
      ensures sync == if old(child).Some? || !created || p == Lost then old(sync) else if p == Written then InSync else Ahead
      ensures ok ==> am == AddIncr(old(am)).(dirty := false) && disk.listing == am.listing
      ensures ok ==> Incr(am.currIncr) in disk.files && disk.files[Incr(am.currIncr)] == Log([], false)
    {
      hide Content, Shape, Noted, Bootable, UpTo, Do;
      ghost var durable, risk := Durable() && (created && p == Written ==> !torn && (forked ==> n == |buf|)), Risky();
      if child.Some? {
        NotedNothing(sem, past, flushed, risk);
        return false;
      }
      Flush(n, torn);
      ghost var between, risk1 := past, Risky();
      var switched := OpenNewIncr(created, p);
      if durable {
        NotedTwice(sem, old(past), between, past, flushed, risk, risk1, Risky());
      }
      if !switched || !forked {
        return false;
      }
      ForkKeeps(sem, disk, am, partial, flushed, pid);
      child := Some(Child(pid, data));
      return true;
    }

    /** The first history file is removed. */
    method Unlink(ghost durable: bool, ghost start: seq<Moment<D, C>>, ghost risk: bool)
      requires Formed() && am.listing.history != [] && start <= past && risk == Risky()
      requires durable ==> Durable() && Noted(sem, start, past, flushed, risk, risk)
      modifies this`disk, this`am, this`past
      ensures Formed() && start <= past && (durable ==> Durable() && Noted(sem, start, past, flushed, risk, risk))
      ensures am == old(am).(listing := old(am).listing.(history := old(am).listing.history[1..]))
      ensures disk == old(disk).(files := old(disk).files - {old(am).listing.history[0]})
      ensures past == old(past) + [Moment(disk, flushed, Remove(old(am).listing.history[0]))]
    {
      hide Content, Shape, Noted, Bootable, Complete;
      UnlinkKeeps(sem, disk, am, child, partial, flushed, sync);
      var remove := Remove(am.listing.history[0]);
      disk := Do(disk, remove);
      am := am.(listing := am.listing.(history := am.listing.history[1..]));
      NoteMore(remove, durable, start, risk);
    }

    /** aofDelHistoryFiles. */
    method DelHistory(gc: bool, p: Persist)
      requires Formed()
      modifies this`disk, this`am, this`sync, this`past
      ensures Formed() && old(past) <= past && (old(Durable()) ==>
          Durable() && Noted(sem, old(past), past, flushed, old(Risky()), Risky()))
      ensures am.listing.base == old(am).listing.base && am.listing.incrs == old(am).listing.incrs
      ensures am.listing.history == if gc then [] else old(am).listing.history
      ensures forall name :: name !in old(am).listing.history || !gc ==> Agree(old(disk).files, disk.files, name)
      ensures forall name :: name in old(am).listing.history && gc ==> name !in disk.files
      ensures sync == if gc && old(am).listing.history != [] && p != Lost then InSync else old(sync)
    {
      hide Content, Shape, Noted, Bootable, Complete, Do, Persisting;
      ghost var durable, history, risk := Durable(), am.listing.history, Risky();
      NotedNothing(sem, past, flushed, risk);
      if !gc || am.listing.history == [] {
        return;
      }
      ghost var k := 0;
      while am.listing.history != []
        invariant Formed() && old(past) <= past && sync == old(sync)
        invariant durable ==> Durable() && Noted(sem, old(past), past, flushed, risk, risk)
        invariant am.listing.base == old(am).listing.base && am.listing.incrs == old(am).listing.incrs
        invariant 0 <= k <= |history| && am.listing.history == history[k..]
        invariant forall name :: name !in history ==> Agree(old(disk).files, disk.files, name)
        invariant forall i :: 0 <= i < k ==> history[i] !in disk.files
        decreases |am.listing.history|
      {
        assert am.listing.history[0] == history[k];
        Unlink(durable, old(past), risk);
        k := k + 1;
      }
      PersistKeeps(sem, disk, am, child, partial, flushed, sync);
      am := am.(dirty := true);
      var replace := Persisting(am, p);
      PersistingDoes(disk, am, p);
      disk := Do(disk, replace);
      am := am.(dirty := p != Written);
      sync := if p == Lost then sync else InSync;
      NoteMore(replace, durable, old(past), risk);
    }

    /** One more moment of a step that began at a risk. */
    ghost method NoteMore(call: Call<D, C>, durable: bool, start: seq<Moment<D, C>>, risk: bool)
      requires Shaped() && start <= past && (durable ==> Durable() && Noted(sem, start, past, flushed, risk, risk))
      requires past != [] && Complete(past) && disk == Do(past[|past| - 1].disk, call)
      modifies this`past
      ensures Formed() && past == old(past) + [Moment(disk, flushed, call)] && start <= past
      ensures durable ==> Noted(sem, start, past, flushed, risk, Risky())
    {
      hide Noted, Content, Shape, Bootable;
      ghost var between := past;
      Note(call, risk);
      if durable {
        NotedTwice(sem, start, between, past, flushed, risk, risk, Risky());
      }
    }

    /** A moment in which the directory is good, whatever memory lists. */
    ghost method NoteSafe(call: Call<D, C>, good: bool)
      requires past != [] && Complete(past) && disk == Do(past[|past| - 1].disk, call) && (good ==> Bootable(sem, disk, flushed))
      modifies this`past
      ensures past == old(past) + [Moment(disk, flushed, call)] && UpTo(past, disk)
      ensures good ==> Noted(sem, old(past), past, flushed, false, false)
    {
      hide Bootable, Do;
      past := past + [Moment(disk, flushed, call)];
    }

    /** The new BASE is in place, and the manifest that names it is ready. */
    ghost predicate Replaced(am': Manifest)
      reads this
    {
      && Formed() && child.Some? && am.listing.incrs != [] && am' == Rewritten(am) && am'.dirty
      && Base(am.currBase + 1) in disk.files && disk.files[Base(am.currBase + 1)] == Snapshot(child.value.snapshot)
    }

    /** The new manifest takes over. */
    method TakeOver(am': Manifest, gc: bool, p2: Persist)
      requires Replaced(am')
      modifies this`disk, this`am, this`child, this`sync, this`past
      ensures Formed() && child.None? && old(past) <= past && sync == InSync
      ensures old(Durable()) ==> Durable() && Noted(sem, old(past), past, flushed, false, Risky())
      ensures am.listing.base == Some(old(am).currBase + 1) && am.listing.incrs == [old(am).currIncr]
      ensures gc ==> am.listing.history == []
      ensures Agree(old(disk).files, disk.files, Base(old(am).currBase + 1)) &&
          Agree(old(disk).files, disk.files, Incr(old(am).currIncr))
    {
      hide Content, Shape, Noted, Bootable, Load, Broken, Torn, Fold, Live, Complete, Do, Persisting;
      ghost var durable := Durable();
      ShapeListing(disk, am, sync);
      RewrittenKeepsLive(disk, am, sync);
      DoneKeeps(sem, disk, am, child, partial, flushed);
      var replace := Persisting(am', Written);
      PersistingDoes(disk, am', Written);
      disk := Do(disk, replace);
      child := None;
      NotedNothing(sem, past, flushed, false);
      am := am'.(dirty := false);
      NoteMore(replace, durable, old(past), false);
      ghost var between := past;
      DelHistory(gc, p2);
      if durable {
        NotedTwice(sem, old(past), between, past, flushed, false, false, false);
      }
    }

    /** It could not be written, or its directory not be synced: the new BASE is removed again. */
    method TakeBack(am': Manifest, p: Persist)
      requires Replaced(am') && p != Written
      modifies this`disk, this`child, this`sync, this`past
      ensures Formed() && child.None? && old(past) <= past && sync == if p == Unsynced then Dangling else InSync
      ensures old(Durable()) ==> Durable() && Noted(sem, old(past), past, flushed, false, Risky())
      ensures Calls(old(past), past) == [Persisting(am', p), Remove(Base(am'.currBase))]
    {
      hide Content, Shape, Noted, Bootable, Load, Broken, Torn, Fold, Live, Complete, Do, Persisting;
      ghost var durable := Durable();
      DoneKeeps(sem, disk, am, child, partial, flushed);
      UndoneKeeps(sem, disk, am, child, partial, flushed);
      var replace := Persisting(am', p);
      PersistingDoes(disk, am', p);
      disk := Do(disk, replace);
      child := None;
      NoteSafe(replace, durable);
      var remove := Remove(Base(am'.currBase));
      FileCallsDo(disk, Base(am'.currBase));
      disk := Do(disk, remove);
      sync := if p == Unsynced then Dangling else sync;
      NoteMore(remove, durable, old(past), false);
    }

    /** The end of a rewrite whose temporary file has become the new BASE: replace the manifest, or take it back. */
    method Install(p: Persist, gc: bool, p2: Persist)
      requires Formed() && child.Some?
      requires Base(am.currBase + 1) in disk.files && disk.files[Base(am.currBase + 1)] == Snapshot(child.value.snapshot)
      modifies this`disk, this`am, this`child, this`sync, this`past
      ensures Formed() && child.None? && old(past) <= past && (old(Durable()) ==>
          Durable() && Noted(sem, old(past), past, flushed, old(Risky()), Risky()))
      ensures sync == if p == Unsynced then Dangling else InSync
      ensures p != Written ==> am == old(am)
      ensures p == Written ==>
        && am.listing.base == Some(old(am).currBase + 1) && am.listing.incrs == [old(am).currIncr]
        && (gc ==> am.listing.history == [])
        && Agree(old(disk).files, disk.files, Base(old(am).currBase + 1)) &&
            Agree(old(disk).files, disk.files, Incr(old(am).currIncr))
    {
      hide Content, Shape, Noted, UpTo, Bootable;
      ShapeListing(disk, am, sync);
      var am' := NewBase(am);
      am' := MarkRewritten(am');
      if p == Written {
        TakeOver(am', gc, p2);
      } else {
        TakeBack(am', p);
      }
    }

    /** backgroundRewriteDoneHandler. */
    method RewriteDone(exited: bool, renamed: bool, p: Persist, gc: bool, p2: Persist)
      requires Formed() && child.Some?
      modifies this`disk, this`am, this`child, this`sync, this`past
      ensures Formed() && child.None? && old(past) <= past && (old(Durable()) ==>
          Durable() && Noted(sem, old(past), past, flushed, old(Risky()), Risky()))
      ensures sync == if exited && renamed && p == Unsynced then Dangling else InSync
      ensures !(exited && renamed && p == Written) ==> am == old(am)
      ensures exited && renamed && p == Written ==>
        && am.listing.base == Some(old(am).currBase + 1) && am.listing.incrs == [old(am).currIncr]
        && (gc ==> am.listing.history == [])
        && Base(old(am).currBase + 1) in disk.files &&
            disk.files[Base(old(am).currBase + 1)] == Snapshot(old(child).value.snapshot)
        && Agree(old(disk).files, disk.files, Incr(old(am).currIncr))
    {
      hide Durable, Shape, Noted, UpTo, Do;
      ghost var durable := Durable();
      var pid := child.value.pid;
      NotedNothing(sem, past, flushed, false);
      if exited {
        SaveTemp(pid);
        if renamed {
          ghost var saved := past;
          RenameTemp(pid);
          ghost var moved := past;
          Install(p, gc, p2);
          if durable {
            NotedTwice(sem, old(past), saved, moved, flushed, false, false, false);
            NotedTwice(sem, old(past), moved, past, flushed, false, false, Risky());
          }
        }
      }
      ghost var between, risk := past, Risky();
      RemoveTemp(pid);
      if durable {
        NotedTwice(sem, old(past), between, past, flushed, false, risk, risk);
      }
    }

    /** The child has written its temporary file. */
    method SaveTemp(pid: nat)
      requires Formed() && child.Some?
      modifies this`disk, this`past
      ensures Formed() && old(past) <= past && (old(Durable()) ==>
          Durable() && Noted(sem, old(past), past, flushed, old(Risky()), Risky()))
      ensures disk == old(disk).(files := old(disk).files[Temp(pid) := Snapshot(child.value.snapshot)])
      ensures past == old(past) + [Moment(disk, flushed, Save(pid, child.value.snapshot))]
    {
      hide Content, Shape, Noted, Bootable;
      TempKeeps(sem, disk, am, child, partial, flushed, sync, pid, child.value.snapshot);
      var save := Save(pid, child.value.snapshot);
      disk := Do(disk, save);
      Note(save, Risky());
    }

    /** The temporary file gets the name of the next BASE. */
    method RenameTemp(pid: nat)
      requires Formed() && child.Some?
      requires Temp(pid) in disk.files && disk.files[Temp(pid)] == Snapshot(child.value.snapshot)
      modifies this`disk, this`past
      ensures Formed() && old(past) <= past && (old(Durable()) ==>
          Durable() && Noted(sem, old(past), past, flushed, old(Risky()), Risky()))
      ensures disk == old(disk).(files := (old(disk).files - {Temp(pid)})[Base(am.currBase +
          1) := Snapshot(child.value.snapshot)])
      ensures past == old(past) + [Moment(disk, flushed, Rename(Temp(pid), Base(am.currBase + 1)))]
    {
      hide Content, Shape, Noted, Bootable;
      RenameKeeps(sem, disk, am, child, partial, flushed, pid, child.value.snapshot);
      var rename := Rename(Temp(pid), Base(am.currBase + 1));
      disk := Do(disk, rename);
      Note(rename, Risky());
    }

    /** aofRemoveTempFile, after which there is no child any more. */
    method RemoveTemp(pid: nat)
      requires Formed()
      modifies this`disk, this`child, this`past
      ensures Formed() && child.None? && old(past) <= past && (old(Durable()) ==>
          Durable() && Noted(sem, old(past), past, flushed, old(Risky()), Risky()))
      ensures disk == old(disk).(files := old(disk).files - {Temp(pid)})
      ensures past == old(past) + [Moment(disk, flushed, Remove(Temp(pid)))]
    {
      hide Content, Shape, Noted, Bootable, Load, Broken, Torn, Fold;
      TempKeeps(sem, disk, am, child, partial, flushed, sync, pid, data);
      ChildGone(sem, disk.(files := disk.files - {Temp(pid)}), am, child, partial, flushed);
      var remove := Remove(Temp(pid));
      disk := Do(disk, remove);
      child := None;
      Note(remove, Risky());
    }
  }

  lemma RiskIs<D, C>(s: Semantics<D, C>, disk: Disk<D, C>, am: Manifest, child: Option<Child<D>>, partial: bool,
      flushed: D, sync: Sync)
    requires Content(s, disk, am, child, partial, flushed)
    ensures Broken(disk, am, sync) <==> sync == Dangling || (sync == Ahead && partial)
  {
  }

  lemma ShapeListing<D, C>(disk: Disk<D, C>, am: Manifest, sync: Sync)
    requires Shape(disk, am, sync)
    ensures am.listing.incrs != [] && am.currIncr == am.listing.incrs[|am.listing.incrs| - 1]
  {
  }

  lemma RewrittenKeepsLive<D, C>(disk: Disk<D, C>, am: Manifest, sync: Sync)
    requires Shape(disk, am, sync)
    ensures Base(am.currBase + 1) !in Rewritten(am).listing.history && Incr(am.currIncr) !in Rewritten(am).listing.history
  {
    RewrittenTidy(am);
  }

  function Appended<D, C>(f: File<D, C>, cmds: seq<C>, torn: bool, partial: bool): (f': File<D, C>) {
    if f.Log? && (partial ==> f.torn) then Log(f.cmds + cmds, torn)
    else if cmds == [] then f
    else Garbage
  }

  lemma AppendKeepsShape<D, C>(disk: Disk<D, C>, disk': Disk<D, C>, am: Manifest, sync: Sync, f: File<D, C>)
    requires Shape(disk, am, sync) && disk'.listing == disk.listing
    requires disk'.files == disk.files[Incr(am.currIncr) := f] && !f.Snapshot?
    ensures Shape(disk', am, sync)
  {
  }

  lemma AppendKeepsContent<D, C>(s: Semantics<D, C>, disk: Disk<D, C>, disk': Disk<D, C>, am: Manifest, child: Option<Child<D>>,
                                 partial: bool, flushed: D, cmds: seq<C>, torn: bool)
    requires Tidy(am) && Content(s, disk, am, child, partial, flushed) && Current(disk, am)
    requires var f := disk.files[Incr(am.currIncr)];
        disk'.files == disk.files[Incr(am.currIncr) := Appended(f, cmds, torn, partial)]
    ensures Content(s, disk', am, child, torn, Fold(s.apply, flushed, cmds))
  {
    LoadAppend(s, disk.files, am.listing.base, am.listing.incrs, cmds, torn);
    if child.Some? {
      FoldAppend(s.apply, child.value.snapshot, disk.files[Incr(am.currIncr)].cmds, cmds);
    }
  }

  lemma NewIncrKeeps<D, C>(s: Semantics<D, C>, disk: Disk<D, C>, am: Manifest, child: Option<Child<D>>, partial: bool,
      flushed: D, sync: Sync)
    requires Shape(disk, am, sync)
    ensures var disk' := disk.(files := disk.files[Incr(am.currIncr + 1) := Log([], false)]);
      && Shape(disk', am, sync)
      && (Content(s, disk, am, child, partial, flushed) ==> Content(s, disk', am, child, partial, flushed))
  {
    hide Content;
    var disk' := disk.(files := disk.files[Incr(am.currIncr + 1) := Log([], false)]);
    NewIncrNotLive(am);
    ElsewhereKeepsContent(s, disk, disk', am, child, partial, flushed, Incr(am.currIncr + 1));
  }

  lemma AddIncrKeeps<D, C>(s: Semantics<D, C>, disk: Disk<D, C>, am: Manifest, partial: bool, flushed: D, sync: Sync)
    requires Shape(disk, am, sync) && Incr(am.currIncr + 1) in disk.files && disk.files[Incr(am.currIncr + 1)] == Log([], false)
    ensures var disk', am' := disk.(listing := AddIncr(am).listing), AddIncr(am).(dirty := false);
      && Shape(disk', am', InSync) && Shape(disk', am, Ahead)
      && (Content(s, disk, am, None, partial, flushed) ==> Content(s, disk', am, None, partial, flushed))
      && (Content(s, disk, am, None, partial, flushed) && !partial ==> Content(s, disk', am', None, partial, flushed))
  {
    hide Tracked, Fold, Load;
    AddIncrTracked(disk.files, am);
    if Content(s, disk, am, None, partial, flushed) {
      LoadExtend(s, disk.files, am.listing.base, am.listing.incrs, am.currIncr + 1);
    }
  }

  lemma AddIncrTracked<D, C>(files: map<Name, File<D, C>>, am: Manifest)
    requires Tracked(files, am)
    ensures Tracked(files, AddIncr(am).(dirty := false))
  {
    var am' := AddIncr(am).(dirty := false);
    forall name | name in files ensures Known(am', name) {
      assert Known(am, name);
      assert name.Incr? && name.n == am'.currIncr ==> am'.listing.incrs[|am.listing.incrs|] == name.n;
      assert forall n :: n in am.listing.incrs ==> n in am'.listing.incrs;
    }
  }

  lemma ForkKeeps<D, C>(s: Semantics<D, C>, disk: Disk<D, C>, am: Manifest, partial: bool, flushed: D, pid: nat)
    requires Incr(am.currIncr) in disk.files && disk.files[Incr(am.currIncr)] == Log([], false)
    ensures Content(s, disk, am, None, partial, flushed) ==> Content(s, disk, am, Some(Child(pid, flushed)), partial, flushed)
  {
  }

  lemma UnlinkKeeps<D, C>(s: Semantics<D, C>, disk: Disk<D, C>, am: Manifest, child: Option<Child<D>>, partial: bool,
      flushed: D, sync: Sync)
    requires Shape(disk, am, sync) && am.listing.history != []
    ensures var disk' := disk.(files := disk.files - {am.listing.history[0]});
      var am' := am.(listing := am.listing.(history := am.listing.history[1..]));
      && Shape(disk', am', sync)
      && (Content(s, disk, am, child, partial, flushed) ==> Content(s, disk', am', child, partial, flushed))
  {
    var name := am.listing.history[0];
    var disk' := disk.(files := disk.files - {name});
    assert Older(am.listing, name);
    OlderNotLive(am.listing, name);
    ElsewhereKeepsContent(s, disk, disk', am, child, partial, flushed, name);
  }

  lemma PersistKeeps<D, C>(s: Semantics<D, C>, disk: Disk<D, C>, am: Manifest, child: Option<Child<D>>, partial: bool,
      flushed: D, sync: Sync)
    requires Shape(disk, am, sync)
    ensures forall dirty ::
      && Shape(disk, am.(dirty := dirty), sync)
      && Shape(disk.(listing := am.listing), am.(dirty := dirty), InSync)
      && (Content(s, disk, am, child, partial, flushed) ==> Content(s, disk, am.(dirty := dirty), child, partial, flushed))
      && (Content(s, disk, am, child, partial, flushed) ==>
          Content(s, disk.(listing := am.listing), am.(dirty := dirty), child, partial, flushed))
  {
  }

  lemma TempKeeps<D, C>(s: Semantics<D, C>, disk: Disk<D, C>, am: Manifest, child: Option<Child<D>>, partial: bool,
      flushed: D, sync: Sync, pid: nat, d: D)
    requires Shape(disk, am, sync)
    ensures var disk' := disk.(files := disk.files[Temp(pid) := Snapshot(d)]);
        var disk'' := disk.(files := disk.files - {Temp(pid)});
      && Shape(disk', am, sync) && Shape(disk'', am, sync)
      && (Content(s, disk, am, child, partial, flushed) ==>
          Content(s, disk', am, child, partial, flushed) && Content(s, disk'', am, child, partial, flushed))
  {
    hide Content;
    var disk', disk'' := disk.(files := disk.files[Temp(pid) := Snapshot(d)]), disk.(files := disk.files - {Temp(pid)});
    ElsewhereKeepsContent(s, disk, disk', am, child, partial, flushed, Temp(pid));
    ElsewhereKeepsContent(s, disk, disk'', am, child, partial, flushed, Temp(pid));
  }

  lemma ChildGone<D, C>(s: Semantics<D, C>, disk: Disk<D, C>, am: Manifest, child: Option<Child<D>>, partial: bool, flushed: D)
    ensures Content(s, disk, am, child, partial, flushed) ==> Content(s, disk, am, None, partial, flushed)
  {
  }

  lemma NewBaseNotLive(am: Manifest)
    requires Tidy(am)
    ensures !Live(am.listing.base, am.listing.incrs, Base(am.currBase + 1))
  {
  }

  lemma RenameKeeps<D, C>(s: Semantics<D, C>, disk: Disk<D, C>, am: Manifest, child: Option<Child<D>>, partial: bool,
      flushed: D, pid: nat, d: D)
    requires Shape(disk, am, InSync)
    ensures var disk' := disk.(files := (disk.files - {Temp(pid)})[Base(am.currBase + 1) := Snapshot(d)]);
      && Shape(disk', am, InSync)
      && (Content(s, disk, am, child, partial, flushed) ==> Content(s, disk', am, child, partial, flushed))
  {
    hide Content;
    var disk1 := disk.(files := disk.files - {Temp(pid)});
    var disk2 := disk.(files := disk1.files[Base(am.currBase + 1) := Snapshot(d)]);
    NewBaseNotLive(am);
    ElsewhereKeepsContent(s, disk, disk1, am, child, partial, flushed, Temp(pid));
    ElsewhereKeepsContent(s, disk1, disk2, am, child, partial, flushed, Base(am.currBase + 1));
  }

  /** The manifest of a finished rewrite. */
  function Rewritten(am: Manifest): (am': Manifest)
    requires am.listing.incrs != []
  {
    var l := NewBase(am).listing;
    Manifest(l.(incrs := l.incrs[|l.incrs| - 1..], history := Incrs(l.incrs[..|l.incrs| - 1]) + l.history),
      am.currBase + 1, am.currIncr, true)
  }

  lemma RewrittenTidy(am: Manifest)
    requires Tidy(am)
    ensures Tidy(Rewritten(am))
  {
    var l, l' := am.listing, Rewritten(am).listing;
    forall i | 0 <= i < |l'.history| ensures Older(l', l'.history[i]) {
      var k := |l.incrs| - 1;
      var middle := if l.base.Some? then 1 else 0;
      if i >= k + middle {
        assert l'.history[i] == l.history[i - k - middle];
        assert Older(l, l.history[i - k - middle]);
      }
    }
  }

  /** A finished rewrite: the new manifest takes over. */
  lemma DoneKeeps<D, C>(s: Semantics<D, C>, disk: Disk<D, C>, am: Manifest, child: Option<Child<D>>, partial: bool, flushed: D)
    requires Shape(disk, am, InSync) && child.Some?
    requires Base(am.currBase + 1) in disk.files && disk.files[Base(am.currBase + 1)] == Snapshot(child.value.snapshot)
    ensures var am' := Rewritten(am).(dirty := false); var disk' := disk.(listing := am'.listing);
      && Shape(disk', am', InSync)
      && (Content(s, disk, am, child, partial, flushed) ==> Content(s, disk', am', None, partial, flushed))
      && (Content(s, disk, am, child, partial, flushed) ==> Bootable(s, disk, flushed) && Bootable(s, disk', flushed))
  {
    hide Bootable;
    RewrittenTidy(am);
    var am' := Rewritten(am).(dirty := false);
    if Content(s, disk, am, child, partial, flushed) {
      NewBaseLoads(s, disk, am', child, flushed);
      NowOk(s, disk, am, child, partial, flushed, InSync);
      NowOk(s, disk.(listing := am'.listing), am', None, partial, flushed, InSync);
    }
  }

  /** A failed one: the new BASE is removed again, whichever manifest is in place. */
  lemma UndoneKeeps<D, C>(s: Semantics<D, C>, disk: Disk<D, C>, am: Manifest, child: Option<Child<D>>, partial: bool, flushed: D)
    requires Shape(disk, am, InSync)
    ensures var gone := disk.files - {Base(am.currBase + 1)}; var l' := Rewritten(am).listing;
      && Shape(Disk(gone, disk.listing), am, InSync) && Shape(Disk(gone, l'), am, Dangling)
      && (Content(s, disk, am, child, partial, flushed) ==> Content(s, Disk(gone, disk.listing), am, None, partial, flushed))
      && (Content(s, disk, am, child, partial, flushed) ==> Content(s, Disk(gone, l'), am, None, partial, flushed))
  {
    RewrittenTidy(am);
    NewBaseNotLive(am);
    var gone := disk.files - {Base(am.currBase + 1)};
    ElsewhereKeepsContent(s, disk, Disk(gone, disk.listing), am, child, partial, flushed, Base(am.currBase + 1));
  }

  lemma NewBaseLoads<D, C>(s: Semantics<D, C>, disk: Disk<D, C>, am: Manifest, child: Option<Child<D>>, flushed: D)
    requires child.Some? && am.listing.incrs == [am.currIncr] && am.listing.base == Some(am.currBase)
    requires Base(am.currBase) in disk.files && disk.files[Base(am.currBase)] == Snapshot(child.value.snapshot)
    ensures Load(s, disk.files, am.listing.base, am.listing.incrs) == Replay(s, disk.files, am.currIncr, true,
        Ok(child.value.snapshot))
  {
    assert am.listing.incrs[..0] == [];
  }
}
