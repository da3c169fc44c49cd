/**
  The append-only directory: a manifest that lists one BASE file, a run of INCR
  files and some HISTORY files, and what a start-up rebuilds from it.
*/
module AofDisk {
  import opened Common

  datatype Result<D> = Ok(d: D) | Failed

  /** Files are named by their kind and sequence number; the rewriting child has a temporary file. */
  datatype Name = Base(n: nat) | Incr(n: nat) | Temp(pid: nat)

  /**
    A snapshot rebuilds a dataset. A log holds whole commands and, when torn, the
    beginning of one more. Garbage is a log that starts with the end of a command.
  */
  datatype File<D, C> = Snapshot(d: D) | Log(cmds: seq<C>, torn: bool) | Garbage

  /** The manifest as it is written to disk. */
  datatype Listing = Listing(base: Option<nat>, incrs: seq<nat>, history: seq<Name>)

  datatype Disk<D, C> = Disk(files: map<Name, File<D, C>>, listing: Listing)

  /** The dataset after a run of commands. */
  function Fold<D, C>(apply: (D, C) -> D, d: D, cmds: seq<C>): (r: D) {
    if cmds == [] then d else apply(Fold(apply, d, cmds[..|cmds| - 1]), cmds[|cmds| - 1])
  }

  lemma {:induction false} FoldAppend<D, C>(apply: (D, C) -> D, d: D, a: seq<C>, b: seq<C>)
    ensures Fold(apply, d, a + b) == Fold(apply, Fold(apply, d, a), b)
  {
    if b == [] {
      assert a + b == a;
    } else {
      FoldAppend(apply, d, a, b[..|b| - 1]);
      assert (a + b)[..|a + b| - 1] == a + b[..|b| - 1];
    }
  }

  // ----- Loading -----

  /** A dataset and the means to change it. */
  datatype Semantics<!D, !C> = Semantics(empty: D, apply: (D, C) -> D)

  function LoadBase<D, C>(s: Semantics<D, C>, files: map<Name, File<D, C>>, base: Option<nat>): (r: Result<D>) {
    if base.None? then Ok(s.empty)
    else if Base(base.value) in files && files[Base(base.value)].Snapshot? then Ok(files[Base(base.value)].d)
    else Failed
  }

  /** Replays one INCR file; a torn one is accepted only as the last. */
  function Replay<D, C>(s: Semantics<D, C>, files: map<Name, File<D, C>>, n: nat, last: bool, r: Result<D>): (r': Result<D>) {
    if r.Ok? && Incr(n) in files && files[Incr(n)].Log? && (last || !files[Incr(n)].torn)
    then Ok(Fold(s.apply, r.d, files[Incr(n)].cmds))
    else Failed
  }

  function ReplayWhole<D, C>(s: Semantics<D, C>, files: map<Name, File<D, C>>, incrs: seq<nat>, r: Result<D>): (r': Result<D>) {
    if incrs == [] then r
    else Replay(s, files, incrs[|incrs| - 1], false, ReplayWhole(s, files, incrs[..|incrs| - 1], r))
  }

  /** What a start-up rebuilds from the BASE and the INCRs of a listing. */
  function Load<D, C>(s: Semantics<D, C>, files: map<Name, File<D, C>>, base: Option<nat>, incrs: seq<nat>): (r: Result<D>) {
    if incrs == [] then LoadBase(s, files, base)
    else Replay(s, files, incrs[|incrs| - 1], true, ReplayWhole(s, files, incrs[..|incrs| - 1], LoadBase(s, files, base)))
  }

  function LoadDisk<D, C>(s: Semantics<D, C>, disk: Disk<D, C>): (r: Result<D>) {
    Load(s, disk.files, disk.listing.base, disk.listing.incrs)
  }

  /** The loop of loadAppendOnlyFiles. */
  method LoadFiles<D, C>(s: Semantics<D, C>, disk: Disk<D, C>) returns (r: Result<D>)
    ensures r == LoadDisk(s, disk)
  {
    var incrs := disk.listing.incrs;
    r := LoadBase(s, disk.files, disk.listing.base);
    if r.Failed? {
      LoadFailed(s, disk.files, incrs, r);
      return;
    }
    for i := 0 to |incrs|
      invariant r == if i < |incrs| then ReplayWhole(s, disk.files, incrs[..i],
          LoadBase(s, disk.files, disk.listing.base)) else LoadDisk(s, disk)
    {
      var last := i + 1 == |incrs|;
      assert incrs[..i + 1][..i] == incrs[..i];
      r := Replay(s, disk.files, incrs[i], last, r);
      if r.Failed? {
        if !last {
          FailureStays(s, disk.files, incrs, i + 1, LoadBase(s, disk.files, disk.listing.base));
        }
        return;
      }
    }
  }

  lemma {:induction false} LoadFailed<D, C>(s: Semantics<D, C>, files: map<Name, File<D, C>>, incrs: seq<nat>, r: Result<D>)
    requires r.Failed?
    ensures ReplayWhole(s, files, incrs, r) == Failed
    ensures incrs != [] ==> ReplayWhole(s, files, incrs[..|incrs| - 1], r) == Failed
  {
    if incrs != [] {
      LoadFailed(s, files, incrs[..|incrs| - 1], r);
    }
  }

  /** Nothing that follows a file that cannot be loaded is loaded. */
  lemma {:induction false} FailureStays<D, C>(
      s: Semantics<D, C>, files: map<Name, File<D, C>>, incrs: seq<nat>, i: nat, r: Result<D>)
    requires i < |incrs| && ReplayWhole(s, files, incrs[..i], r) == Failed
    ensures ReplayWhole(s, files, incrs[..|incrs| - 1], r) == Failed
  {
    var front := incrs[..|incrs| - 1];
    if i < |front| {
      assert front[..i] == incrs[..i];
      FailureStays(s, files, front, i, r);
    } else {
      assert front == incrs[..i];
    }
  }

  // ----- What a change of the directory does to loading -----

  ghost predicate Agree<D, C>(files: map<Name, File<D, C>>, files': map<Name, File<D, C>>, name: Name) {
    if name in files then name in files' && files'[name] == files[name] else name !in files'
  }

  /** The files that a listing loads. */
  ghost predicate Live(base: Option<nat>, incrs: seq<nat>, name: Name) {
    match name
    case Base(n) => base == Some(n)
    case Incr(n) => n in incrs
    case Temp(_) => false
  }

  lemma {:induction false} ReplaySame<D, C>(
      s: Semantics<D, C>, files: map<Name, File<D, C>>, files': map<Name, File<D, C>>, incrs: seq<nat>, r: Result<D>)
    requires forall n: nat :: n in incrs ==> Agree(files, files', Incr(n))
    ensures ReplayWhole(s, files, incrs, r) == ReplayWhole(s, files', incrs, r)
  {
    if incrs != [] {
      assert incrs[|incrs| - 1] in incrs;
      assert Agree(files, files', Incr(incrs[|incrs| - 1]));
      assert forall n: nat :: n in incrs[..|incrs| - 1] ==> n in incrs;
      ReplaySame(s, files, files', incrs[..|incrs| - 1], r);
    }
  }

  /** Only live files matter. */
  lemma LoadSame<D, C>(s: Semantics<D, C>, files: map<Name, File<D, C>>, files': map<Name, File<D, C>>,
      base: Option<nat>, incrs: seq<nat>)
    requires forall name :: Live(base, incrs, name) ==> Agree(files, files', name)
    ensures Load(s, files, base, incrs) == Load(s, files', base, incrs)
  {
    assert base.Some? ==> Live(base, incrs, Base(base.value)) && Agree(files, files', Base(base.value));
    assert forall n: nat :: n in incrs ==> Live(base, incrs, Incr(n)) && Agree(files, files', Incr(n));
    if incrs != [] {
      ReplaySame(s, files, files', incrs[..|incrs| - 1], LoadBase(s, files, base));
    }
  }

  /** Writing to the last file appends to what is loaded. */
  lemma LoadAppend<D, C>(s: Semantics<D, C>, files: map<Name, File<D, C>>, base: Option<nat>, incrs: seq<nat>,
      more: seq<C>, torn: bool)
    requires incrs != [] && Load(s, files, base, incrs).Ok? && forall i :: 0 <= i < |incrs| - 1 ==> incrs[i] != incrs[|incrs| - 1]
    ensures var name := Incr(incrs[|incrs| - 1]);
      && name in files && files[name].Log?
      && Load(s, files[name := Log(files[name].cmds + more, torn)], base,
          incrs) == Ok(Fold(s.apply, Load(s, files, base, incrs).d, more))
  {
    var n := incrs[|incrs| - 1];
    var files' := files[Incr(n) := Log(files[Incr(n)].cmds + more, torn)];
    assert forall m: nat :: m in incrs[..|incrs| - 1] ==> m != n && Agree(files, files', Incr(m));
    ReplaySame(s, files, files', incrs[..|incrs| - 1], LoadBase(s, files, base));
    FoldAppend(s.apply, ReplayWhole(s, files, incrs[..|incrs| - 1], LoadBase(s, files, base)).d, files[Incr(n)].cmds, more);
  }

  /** A further empty file changes nothing, unless it comes after a torn one. */
  lemma LoadExtend<D, C>(s: Semantics<D, C>, files: map<Name, File<D, C>>, base: Option<nat>, incrs: seq<nat>, k: nat)
    requires incrs != [] && Load(s, files, base, incrs).Ok? && Incr(k) in files && files[Incr(k)] == Log([], false)
    ensures var name := Incr(incrs[|incrs| - 1]);
      && name in files && files[name].Log?
      && Load(s, files, base, incrs + [k]) == if files[name].torn then Failed else Load(s, files, base, incrs)
  {
    assert (incrs + [k])[..|incrs|] == incrs;
  }
}
