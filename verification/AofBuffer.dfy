/**
  The write buffer of the append-only file: commands are fed to it and flushes move it
  to the file under any outcome of write and ftruncate. A file opened at start-up is in
  append mode; one opened by a rewrite is not, and keeps a file offset.
*/
module AofBuffer {
  import opened Common

  /** One call of write: interrupted, failed, or so many bytes taken. */
  datatype WriteResult = Interrupted | Error | Took(n: nat)

  datatype Policy = Always | EverySec | Never

  function Zeros(n: nat): (z: seq<Byte>)
    ensures |z| == n
  {
    seq(n, i => 0)
  }

  /** Bytes written at an offset; one past the end leaves a gap of zeros. */
  function Placed(file: seq<Byte>, at: nat, data: seq<Byte>): (file': seq<Byte>)
    requires at >= |file|
    ensures |file'| == if data == [] then |file| else at + |data|
  {
    if data == [] then file else file + Zeros(at - |file|) + data
  }

  lemma PlacedTwice(file: seq<Byte>, at: nat, a: seq<Byte>, b: seq<Byte>)
    requires at >= |file|
    ensures Placed(Placed(file, at, a), at + |a|, b) == Placed(file, at, a + b)
  {
    if a == [] {
      assert a + b == b;
    } else if b == [] {
      assert a + b == a;
    } else {
      PlacedAtEnd(Placed(file, at, a), b);
      Associative(file + Zeros(at - |file|), a, b);
    }
  }

  lemma PlacedAtEnd(file: seq<Byte>, data: seq<Byte>)
    ensures Placed(file, |file|, data) == file + data
  {
    assert file + Zeros(0) == file && file + [] == file;
  }

  lemma Associative(a: seq<Byte>, b: seq<Byte>, c: seq<Byte>)
    ensures (a + b) + c == a + (b + c)
  {
  }

  lemma PlacedNothing(file: seq<Byte>, at: nat)
    requires at >= |file|
    ensures Placed(file, at, []) == file
  {
  }

  /** How much of a buffer a run of write calls takes; calls beyond those listed take everything. */
  function Taken(results: seq<WriteResult>, len: nat): (n: nat)
    ensures n <= len
  {
    if len == 0 then 0
    else if results == [] then len
    else match results[0]
      case Error => 0
      case Interrupted => Taken(results[1..], len)
      case Took(n) => var m := if n <= len then n else len; m + Taken(results[1..], len - m)
  }

  lemma TakenNext(results: seq<WriteResult>, i: nat, len: nat)
    requires i <= |results| && len > 0
    ensures i == |results| ==> Taken(results[i..], len) == len
    ensures i < |results| && results[i].Error? ==> Taken(results[i..], len) == 0
    ensures i < |results| && results[i].Interrupted? ==> Taken(results[i..], len) == Taken(results[i + 1..], len)
    ensures i < |results| && results[i].Took? ==>
      var m := if results[i].n <= len then results[i].n else len; Taken(results[i..], len) == m + Taken(results[i + 1..], len - m)
  {
    if i < |results| {
      assert results[i..][1..] == results[i + 1..];
    }
  }

  lemma TakenAll(results: seq<WriteResult>, i: nat)
    requires i <= |results|
    ensures Taken(results[i..], 0) == 0
  {
  }

  lemma PlacedPrefix(file: seq<Byte>, at: nat, data: seq<Byte>)
    requires at >= |file|
    ensures Placed(file, at, data)[..|file|] == file
  {
  }

  /** Bytes written at the end of the file continue it; past the end they do not. */
  lemma PlacedExact(file: seq<Byte>, at: nat, data: seq<Byte>, n: nat)
    requires at >= |file| && 0 < n <= |data|
    ensures at == |file| ==> Placed(file, at, data[..n]) + data[n..] == file + data
    ensures |Placed(file, at, data[..n])| == at + n
  {
    if at == |file| {
      PlacedAtEnd(file, data[..n]);
      Associative(file, data[..n], data[n..]);
      assert data[..n] + data[n..] == data;
    }
  }

  class Log {
    /** The file's contents, its mode and, without append mode, where the next write goes. */
    var file: seq<Byte>
    const append: bool
    var offset: nat

    var buf: seq<Byte>
    var lastIncrSize: nat
    var fsyncOffset: nat
    var postponedStart: int
    var lastFsync: int
    var lastWriteOk: bool
    var exited: bool

    /** Every byte in the file when it was opened, and every byte fed since. */
    ghost var fed: seq<Byte>

    constructor (contents: seq<Byte>, append: bool)
      ensures file == contents == fed && this.append == append && buf == [] && !exited
      ensures postponedStart == lastFsync == 0 && lastWriteOk
      ensures Exact() && Aligned() && Bounded()
    {
      file, offset, this.append := contents, |contents|, append;
      buf, lastIncrSize, fsyncOffset := [], |contents|, |contents|;
      postponedStart, lastFsync, lastWriteOk, exited := 0, 0, true, false;
      fed := contents;
    }

    /** The file and the buffer hold what was fed, and the recorded size is the file's. */
    ghost predicate Exact()
      reads this
    {
      fed == file + buf && |file| == lastIncrSize
    }

    /** The next write goes to the end of the file. */
    ghost predicate Aligned()
      reads this
    {
      append || offset == |file|
    }

    ghost predicate Bounded()
      reads this
    {
      (!append ==> offset >= |file|) && fsyncOffset <= lastIncrSize
    }

    /** Where the next write goes. */
    ghost function At(): (at: nat)
      reads this
    {
      if append then |file| else offset
    }

    /** The end of feedAppendOnlyFile. */
    method Feed(bytes: seq<Byte>)
      modifies this`buf, this`fed
      ensures buf == old(buf) + bytes && fed == old(fed) + bytes
      ensures old(Exact()) ==> Exact()
    {
      buf, fed := buf + bytes, fed + bytes;
    }

    /** aofWrite: retries short and interrupted writes, and stops at an error. */
    method Write(results: seq<WriteResult>) returns (written: int)
      requires Bounded()
      modifies this`file, this`offset
      ensures -1 <= written <= |buf| && (written == -1 ==> buf != []) && Max(written) == Taken(results, |buf|)
      ensures old(At()) >= |old(file)| && file == Placed(old(file), old(At()), buf[..Max(written)])
      ensures !append ==> offset == old(offset) + Max(written)
      ensures Bounded()
    {
      hide Placed, Taken;
      var total, i := 0, 0;
      assert results[0..] == results;
      ghost var at := At();
      PlacedNothing(file, at);
      while total < |buf|
        invariant 0 <= total <= |buf|
        invariant file == Placed(old(file), at, buf[..total]) && (!append ==> offset == old(offset) + total)
        invariant 0 <= i <= |results| && Taken(results, |buf|) == total + Taken(results[i..], |buf| - total)
        decreases |results| - i, |buf| - total
      {
        var r := if i < |results| then results[i] else Took(|buf| - total);
        TakenNext(results, i, |buf| - total);
        TakenAll(results, i);
        i := if i < |results| then i + 1 else i;
        if r.Error? {
          return if total > 0 then total else -1;
        } else if r.Took? {
          var n := if r.n <= |buf| - total then r.n else |buf| - total;
          PlacedTwice(old(file), at, buf[..total], buf[total..total + n]);
          assert buf[..total] + buf[total..total + n] == buf[..total + n];
          file := Placed(file, if append then |file| else offset, buf[total..total + n]);
          offset := offset + n;
          total := total + n;
        }
      }
      assert buf[..total] == buf;
      TakenAll(results, i);
      return total;
    }

    /**
      What became of the data written so far: "always" syncs it, "everysec" once a second and in the
      background, unless the last sync is still under way; then only the second is noted.
    */
    ghost predicate Synced(policy: Policy, syncing: bool, now: int, fsyncOk: bool, skip: bool, offset0: nat, last0: int)
      reads this
    {
      if !skip && ((policy == Always && fsyncOk) || (policy == EverySec && now > last0)) then
        lastFsync == now && fsyncOffset == if policy == EverySec && syncing then offset0 else lastIncrSize
      else lastFsync == last0 && fsyncOffset == offset0
    }

    /** The try_fsync part of flushAppendOnlyFile. */
    method TryFsync(policy: Policy, syncing: bool, now: int, fsyncOk: bool, skip: bool)
      requires !exited && fsyncOffset <= lastIncrSize
      modifies this`fsyncOffset, this`lastFsync, this`exited
      ensures fsyncOffset <= lastIncrSize && Synced(policy, syncing, now, fsyncOk, skip, old(fsyncOffset), old(lastFsync))
      ensures exited <==> policy == Always && !skip && !fsyncOk
      ensures policy == Always && !skip && !exited ==> fsyncOffset == lastIncrSize
      ensures policy == EverySec && !skip && !syncing && now > old(lastFsync) ==> fsyncOffset == lastIncrSize
      ensures skip || policy == Never ==> fsyncOffset == old(fsyncOffset) && lastFsync == old(lastFsync)
    {
      if skip {
        return;
      }
      if policy == Always {
        if !fsyncOk {
          exited := true;
          return;
        }
        fsyncOffset, lastFsync := lastIncrSize, now;
      } else if policy == EverySec && now > lastFsync {
        if !syncing {
          fsyncOffset := lastIncrSize;
        }
        lastFsync := now;
      }
    }

    /** The error branch of flushAppendOnlyFile, after a write that took only part of the buffer. */
    method Unfinished(ghost file0: seq<Byte>, ghost at: nat, written: int, policy: Policy, truncates: bool)
      requires !exited && -1 <= written < |buf| && |file0| == lastIncrSize <= at && fed == file0 + buf &&
          fsyncOffset <= lastIncrSize
      requires file == Placed(file0, at, buf[..Max(written)]) && (if append then at == |file0| else offset == at + Max(written))
      modifies this`file, this`buf, this`lastIncrSize, this`lastWriteOk, this`exited
      ensures Bounded() && (exited <==> policy == Always)
      ensures !exited ==> !lastWriteOk && (Exact() <==> at == |file0| || written <= 0 || truncates)
      ensures !exited ==> buf == if written <= 0 || truncates then old(buf) else old(buf)[written..]
      ensures !exited && (written <= 0 || truncates) ==> file == file0
      ensures !exited && !(written <= 0 || truncates) ==>
          file == old(file) && |file| == at + written && lastIncrSize == old(lastIncrSize) + written
      ensures !exited && (written <= 0 || truncates) ==> lastIncrSize == old(lastIncrSize)
    {
      var left := written;
      PlacedNothing(file0, at);
      if written != -1 && truncates {
        PlacedPrefix(file0, at, buf[..Max(written)]);
        file := file[..lastIncrSize];
        left := -1;
      }
      if policy == Always {
        exited := true;
        return;
      }
      lastWriteOk := false;
      if left > 0 {
        PlacedExact(file0, at, buf, left);
        lastIncrSize, buf := lastIncrSize + left, buf[left..];
      }
    }

    /** The part of flushAppendOnlyFile that writes. */
    method FlushNow(policy: Policy, syncing: bool, now: int, results: seq<WriteResult>, truncates: bool, fsyncOk: bool,
        skip: bool)
      returns (taken: nat)
      requires !exited && Exact() && Bounded() && buf != []
      modifies this`file, this`offset, this`buf, this`lastIncrSize, this`fsyncOffset, this`postponedStart,
        this`lastFsync, this`lastWriteOk, this`exited
      ensures taken == Taken(results, |old(buf)|) && Bounded()
      ensures !exited ==> (Exact() <==> old(Aligned()) || taken == 0 || (taken < |old(buf)| && truncates))
      ensures !exited ==> var kept := if taken < |old(buf)| && truncates then 0 else taken;
        && old(At()) >= |old(file)| && file == Placed(old(file), old(At()), old(buf)[..kept])
        && lastIncrSize == old(lastIncrSize) + kept && buf == old(buf)[kept..]
      ensures !append ==> offset == old(offset) + taken
      ensures exited ==> policy == Always
      ensures policy == Always && !exited && !skip ==> buf == [] && fsyncOffset == lastIncrSize
      ensures !exited && buf != [] ==> !lastWriteOk && fsyncOffset == old(fsyncOffset) && lastFsync == old(lastFsync)
      ensures !exited && buf == [] ==>
        lastWriteOk && Synced(policy, syncing, now, fsyncOk, skip, old(fsyncOffset), old(lastFsync))
      ensures postponedStart == 0
    {
      hide Placed, Taken;
      PlacedNothing(file, At());
      assert buf[..0] == [] && buf[0..] == buf && buf[..|buf|] == buf;
      var written := Write(results);
      taken := Max(written);
      postponedStart := 0;
      if written != |buf| {
        Unfinished(old(file), old(At()), written, policy, truncates);
        return;
      }
      PlacedExact(old(file), old(At()), buf, |buf|);
      lastWriteOk, lastIncrSize := true, lastIncrSize + written;
      buf := [];
      TryFsync(policy, syncing, now, fsyncOk, skip);
    }

    /**
      flushAppendOnlyFile. The result is how many bytes write took; afterwards the file is
      exact again unless bytes were written past a gap.
    */
    method Flush(force: bool, policy: Policy, syncing: bool, now: int, results: seq<WriteResult>, truncates: bool,
        fsyncOk: bool, skip: bool)
      returns (taken: nat, postponed: bool)
      requires !exited && Exact() && Bounded()
      modifies this`file, this`offset, this`buf, this`lastIncrSize, this`fsyncOffset, this`postponedStart,
        this`lastFsync, this`lastWriteOk, this`exited
      ensures taken <= |old(buf)| && Bounded()
      ensures !exited ==> (Exact() <==> old(Aligned()) || taken == 0 || (taken < |old(buf)| && truncates))
      ensures old(Aligned()) ==> (!exited ==> (Aligned() <==> append || !(0 < taken < |old(buf)| && truncates)))
      ensures !exited ==> var kept := if taken < |old(buf)| && truncates then 0 else taken;
        && old(At()) >= |old(file)| && file == Placed(old(file), old(At()), old(buf)[..kept])
        && lastIncrSize == old(lastIncrSize) + kept && buf == old(buf)[kept..]
      ensures !append ==> offset == old(offset) + taken
      ensures taken == if postponed then 0 else Taken(results, |old(buf)|)
      ensures exited ==> policy == Always
      ensures policy == Always && !exited && !skip ==> buf == [] && fsyncOffset == lastIncrSize
      ensures postponed <==>
        old(buf) != [] && policy == EverySec && !force && syncing && (old(postponedStart) == 0 || now - old(postponedStart) < 2)
      ensures postponed ==> file == old(file) && buf == old(buf)
      ensures postponedStart == if postponed && old(postponedStart) == 0 then now
        else if postponed || old(buf) == [] then old(postponedStart) else 0
      ensures !postponed && !exited && buf != [] ==> !lastWriteOk
      ensures !exited ==> var tried := if old(buf) != [] then buf == []
          else old(fsyncOffset) != lastIncrSize && (policy == EverySec ==> !syncing);
        if tried then Synced(policy, syncing, now, fsyncOk, skip, old(fsyncOffset), old(lastFsync))
        else fsyncOffset == old(fsyncOffset) && lastFsync == old(lastFsync)
    {
      hide Placed, Taken;
      taken, postponed := 0, false;
      NothingKept(file, At(), buf, results);
      if buf == [] {
        if fsyncOffset != lastIncrSize && ((policy == EverySec && now > lastFsync && !syncing) || policy == Always) {
          TryFsync(policy, syncing, now, fsyncOk, skip);
        }
        return;
      }
      if policy == EverySec && !force && syncing {
        if postponedStart == 0 {
          postponedStart := now;
          return 0, true;
        } else if now - postponedStart < 2 {
          return 0, true;
        }
      }
      taken := FlushNow(policy, syncing, now, results, truncates, fsyncOk, skip);
    }
  }

  function Max(n: int): (m: nat) {
    if n < 0 then 0 else n
  }

  lemma NothingKept(file: seq<Byte>, at: nat, buf: seq<Byte>, results: seq<WriteResult>)
    requires at >= |file|
    ensures Placed(file, at, buf[..0]) == file && buf[0..] == buf && Taken(results, 0) == 0
  {
  }

  /** A step of the server: feed a command, or flush with some outcome. */
  datatype Op = FeedOp(bytes: seq<Byte>)
    | FlushOp(force: bool, policy: Policy, syncing: bool, now: int, results: seq<WriteResult>, truncates: bool,
      fsyncOk: bool, skip: bool)

  function Fed(ops: seq<Op>): (bytes: seq<Byte>) {
    if ops == [] then []
    else Fed(ops[..|ops| - 1]) + if ops[|ops| - 1].FeedOp? then ops[|ops| - 1].bytes else []
  }

  /**
    Any run on a file in append mode, or without a truncated short write: as long as the
    server runs, the file followed by the buffer is what was there and everything fed.
  */
  method Run(log: Log, ops: seq<Op>) returns (done: nat)
    requires !log.exited && log.Exact() && log.Bounded() && log.Aligned()
    requires log.append || forall i :: 0 <= i < |ops| && ops[i].FlushOp? ==> !ops[i].truncates
    modifies log
    ensures done <= |ops| && (done < |ops| ==> log.exited)
    ensures !log.exited ==> log.file + log.buf == old(log.fed) + Fed(ops) && |log.file| == log.lastIncrSize
  {
    done := 0;
    while done < |ops| && !log.exited
      invariant 0 <= done <= |ops|
      invariant !log.exited ==> log.Exact() && log.Bounded() && log.Aligned()
      invariant log.fed == old(log.fed) + Fed(ops[..done])
    {
      assert ops[..done + 1][..done] == ops[..done];
      match ops[done] {
        case FeedOp(bytes) =>
          log.Feed(bytes);
          Associative(old(log.fed), Fed(ops[..done]), bytes);
        case FlushOp(force, policy, syncing, now, results, truncates, fsyncOk, skip) =>
          var taken, postponed := log.Flush(force, policy, syncing, now, results, truncates, fsyncOk, skip);
          assert Fed(ops[..done + 1]) == Fed(ops[..done]) + [] == Fed(ops[..done]);
      }
      done := done + 1;
    }
    assert ops[..|ops|] == ops;
  }

  // ----- Exactly which runs stay exact -----

  /**
    What the outcomes of a run amount to: how much is in the buffer, whether the descriptor is past the end
    of the file, and whether bytes were kept there.
  */
  datatype Track = Track(len: int, off: bool, spoilt: bool)

  /** One step, of which write took t bytes; a short write that is truncated away leaves the descriptor behind it. */
  function Next(k: Track, append: bool, op: Op, t: nat): (k': Track) {
    if op.FeedOp? then k.(len := k.len + |op.bytes|)
    else
      var short := t < k.len && op.truncates;
      var kept := if short then 0 else t;
      Track(k.len - kept, k.off || (!append && short && t > 0), k.spoilt || (k.off && kept > 0))
  }

  function Tracked(k: Track, append: bool, ops: seq<Op>, takens: seq<nat>): (k': Track)
    requires |ops| == |takens|
  {
    if ops == [] then k
    else Next(Tracked(k, append, ops[..|ops| - 1], takens[..|takens| - 1]), append, ops[|ops| - 1], takens[|takens| - 1])
  }

  lemma TrackedNext(k: Track, append: bool, ops: seq<Op>, takens: seq<nat>, op: Op, t: nat)
    requires |ops| == |takens|
    ensures Tracked(k, append, ops + [op], takens + [t]) == Next(Tracked(k, append, ops, takens), append, op, t)
  {
    hide Next;
    assert (ops + [op])[..|ops|] == ops && (takens + [t])[..|takens|] == takens;
  }

  /**
    Any run on any file, watched until the server exits or bytes are kept past a gap: the file is exact if and
    only if nothing was kept of a write after one that was cut short and truncated away.
  */
  method RunIff(log: Log, ops: seq<Op>) returns (done: nat, takens: seq<nat>)
    requires !log.exited && log.Exact() && log.Bounded() && log.Aligned()
    modifies log
    ensures done <= |ops| && |takens| == done && (done < |ops| ==> log.exited || !log.Exact())
    ensures !log.exited ==> (log.Exact() <==>
        !Tracked(Track(|old(log.buf)|, false, false), log.append, ops[..done], takens).spoilt)
    ensures !log.exited && log.Exact() ==> log.file + log.buf == old(log.fed) + Fed(ops) && |log.file| == log.lastIncrSize
  {
    hide Tracked, Fed, Taken, Placed, Next;
    done, takens := 0, [];
    var start := Track(|log.buf|, false, false);
    var k := start;
    FedNothing(ops, start, log.append, log.fed);
    while done < |ops| && !log.exited && !k.spoilt
      invariant 0 <= done <= |ops| && |takens| == done && log.fed == old(log.fed) + Fed(ops[..done])
      invariant k == Tracked(start, log.append, ops[..done], takens) && (!log.exited ==> Kept(log, k))
    {
      var t := Act(log, ops[done], k);
      TrackedNext(start, log.append, ops[..done], takens, ops[done], t);
      FedNext(old(log.fed), ops, done);
      k := Next(k, log.append, ops[done], t);
      takens := takens + [t];
      done := done + 1;
    }
    assert ops[..|ops|] == ops;
  }

  /** The log is where the outcomes say. */
  ghost predicate Kept(log: Log, k: Track)
    reads log
  {
    && log.Exact() == !k.spoilt && log.Bounded()
    && (!k.spoilt ==> k.len == |log.buf| && k.off == !log.Aligned())
  }

  method Act(log: Log, op: Op, ghost k: Track) returns (t: nat)
    requires !log.exited && !k.spoilt && Kept(log, k)
    modifies log
    ensures log.fed == old(log.fed) + if op.FeedOp? then op.bytes else []
    ensures !log.exited ==> Kept(log, Next(k, log.append, op, t))
  {
    hide Taken;
    t := 0;
    match op {
      case FeedOp(bytes) =>
        log.Feed(bytes);
      case FlushOp(force, policy, syncing, now, results, truncates, fsyncOk, skip) =>
        NothingKept(log.file, log.At(), log.buf, results);
        var postponed;
        t, postponed := log.Flush(force, policy, syncing, now, results, truncates, fsyncOk, skip);
        assert log.fed == old(log.fed) + [];
    }
  }

  lemma FedNothing(ops: seq<Op>, k: Track, append: bool, fed: seq<Byte>)
    ensures fed + Fed(ops[..0]) == fed && Tracked(k, append, ops[..0], []) == k
  {
  }

  lemma FedNext(fed: seq<Byte>, ops: seq<Op>, i: nat)
    requires i < |ops|
    ensures fed + Fed(ops[..i + 1]) == (fed + Fed(ops[..i])) + if ops[i].FeedOp? then ops[i].bytes else []
    ensures ops[..i] + [ops[i]] == ops[..i + 1]
  {
    assert ops[..i + 1][..i] == ops[..i];
  }

  /** Without append mode, a short write that is truncated away puts a gap before the next one. */
  method GapAfterTruncate() returns (log: Log)
    ensures !log.exited && log.fed == [7, 8] && log.file == [0, 7, 8] && log.lastIncrSize == 2 && log.buf == []
  {
    log := new Log([], false);
    log.Feed([7, 8]);
    assert Taken([Took(1), Error], 2) == 1 + Taken([Error], 1) by {
      assert [Took(1), Error][1..] == [Error];
    }
    var taken, postponed := log.Flush(true, Never, false, 1, [Took(1), Error], true, true, false);
    taken, postponed := log.Flush(true, Never, false, 2, [], true, true, false);
  }
}
