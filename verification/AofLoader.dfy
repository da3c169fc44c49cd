/**
  The loader's loop over a log, with transactions and annotations, and exactly which
  cuts of a log leave a file that can be loaded and continued.
*/
module AofLoader {
  import opened Common
  import opened AofLog

  /** What the command table knows of a command; an unknown one stops the load. */
  datatype Kind = Plain | Multi | Exec | Unknown

  /** What the loader has done: commands run, commands queued by an open MULTI, and two offsets. */
  datatype Loaded = Loaded(executed: seq<Command>, queued: seq<Command>, inMulti: bool, valid: nat, beforeMulti: nat)

  const START := Loaded([], [], false, 0, 0)

  /** A command that ends at an offset is queued or run. */
  function Step(kind: Command -> Kind, st: Loaded, argv: Command, end: nat): (st': Loaded) {
    var k := kind(argv);
    var before := if k == Multi then st.valid else st.beforeMulti;
    if st.inMulti && k != Exec then st.(queued := st.queued + [argv], valid := end, beforeMulti := before)
    else if k == Multi then st.(inMulti := true, queued := [], valid := end, beforeMulti := before)
    else if k == Exec then st.(executed := st.executed + st.queued, queued := [], inMulti := false, valid := end)
    else st.(executed := st.executed + [argv], valid := end)
  }

  datatype End = AtEnd | CutShort | Malformed | Refused

  /** The state in which the scan of a log stops, and why it stops. */
  function Scan(kind: Command -> Kind, s: seq<Byte>, pos: nat, st: Loaded): (r: (Loaded, End))
    decreases |s|
  {
    if s == [] then (st, AtEnd)
    else match ReadItem(s)
      case Got(Annotation(_), n) => Scan(kind, s[n..], pos + n, st)
      case Got(Run(argv), n) => if kind(argv) == Unknown
        then (st, Refused) else Scan(kind, s[n..], pos + n, Step(kind, st, argv, pos + n))
      case Short => (st, CutShort)
      case Bad => (st, Malformed)
  }

  datatype Status = Empty | Ok | Truncated | Failed

  /** How the load ends, and how much of the file is kept; the end may be cut off if that is asked for and possible. */
  function Finish(st: Loaded, end: End, size: nat, loadTruncated: bool): (r: (Status, nat)) {
    match end
    case Malformed => (Failed, size)
    case Refused => (Failed, size)
    case CutShort => if loadTruncated then (Truncated, st.valid) else (Failed, size)
    case AtEnd => if !st.inMulti then (Ok, size) else if loadTruncated then (Truncated, st.beforeMulti) else (Failed, size)
  }

  /** The offsets lie in the file. */
  lemma {:induction false} ScanWithin(kind: Command -> Kind, s: seq<Byte>, pos: nat, st: Loaded)
    requires st.valid <= pos && st.beforeMulti <= pos
    ensures Scan(kind, s, pos, st).0.valid <= pos + |s| && Scan(kind, s, pos, st).0.beforeMulti <= pos + |s|
    decreases |s|
  {
    hide ReadItem;
    if s != [] {
      match ReadItem(s)
      case Got(Annotation(_), n) => ScanWithin(kind, s[n..], pos + n, st);
      case Got(Run(argv), n) =>
        if kind(argv) != Unknown {
          ScanWithin(kind, s[n..], pos + n, Step(kind, st, argv, pos + n));
        }
      case Short =>
      case Bad =>
    }
  }

  lemma ScanNext(kind: Command -> Kind, file: seq<Byte>, pos: nat, st: Loaded)
    requires pos < |file|
    ensures var s := file[pos..]; var r := ReadItem(s);
      && (r.Short? ==> Scan(kind, s, pos, st) == (st, CutShort)) && (r.Bad? ==> Scan(kind, s, pos, st) == (st, Malformed))
      && (r.Got? && r.value.Annotation? ==> Scan(kind, s, pos, st) == Scan(kind, file[pos + r.used..], pos + r.used, st))
      && (r.Got? && r.value.Run? && kind(r.value.argv) == Unknown ==> Scan(kind, s, pos, st) == (st, Refused))
      && (r.Got? && r.value.Run? && kind(r.value.argv) != Unknown ==>
            Scan(kind, s, pos, st) == Scan(kind, file[pos + r.used..], pos + r.used, Step(kind, st, r.value.argv, pos + r.used)))
  {
    hide ReadItem, Step;
    var r := ReadItem(file[pos..]);
    if r.Got? {
      assert file[pos..][r.used..] == file[pos + r.used..];
    }
  }

  lemma ScanStops(kind: Command -> Kind, pos: nat, st: Loaded)
    ensures Scan(kind, [], pos, st) == (st, AtEnd)
  {
  }

  /** The read loop of loadSingleAppendOnlyFile and what follows it. */
  method LoadFile(kind: Command -> Kind, file: seq<Byte>, loadTruncated: bool,
      truncates: bool) returns (status: Status, st: Loaded, kept: seq<Byte>)
    ensures file == [] ==> status == Empty && kept == file && st == START
    ensures file != [] ==> var (st', end) := Scan(kind, file, 0, START);
        var (status', size) := Finish(st', end, |file|, loadTruncated && truncates);
      st == st' && status == status' && size <= |file| && kept == file[..size]
  {
    hide ReadItem, Step, Scan;
    st, kept := START, file;
    if file == [] {
      return Empty, st, kept;
    }
    ScanWithin(kind, file, 0, START);
    var pos, end := 0, AtEnd;
    assert file[..|file|] == file && file[0..] == file;
    while pos < |file|
      invariant 0 <= pos <= |file| && Scan(kind, file, 0, START) == Scan(kind, file[pos..], pos, st)
    {
      ScanNext(kind, file, pos, st);
      match ReadItem(file[pos..])
      case Short =>
        end := CutShort;
        break;
      case Bad =>
        end := Malformed;
        break;
      case Got(item, n) =>
        if item.Run? && kind(item.argv) == Unknown {
          end := Refused;
          break;
        }
        if item.Run? {
          st := Step(kind, st, item.argv, pos + n);
        }
        pos := pos + n;
    }
    ScanStops(kind, pos, st);
    assert Scan(kind, file, 0, START) == (st, end) by {
      assert end == AtEnd ==> file[pos..] == [];
    }
    if end == Malformed || end == Refused {
      return Failed, st, kept;
    }
    var size := st.valid;
    if end == AtEnd {
      if !st.inMulti {
        return Ok, st, kept;
      }
      size := st.beforeMulti;
    }
    if !loadTruncated || !truncates {
      return Failed, st, kept;
    }
    return Truncated, st, file[..size];
  }

  // ----- Encoded logs -----

  /** Commands have a name that is known, and annotations fit on a line. */
  ghost predicate Sound(kind: Command -> Kind, item: Item) {
    match item
    case Run(argv) => argv != [] && kind(argv) != Unknown
    case Annotation(text) => LF !in text
  }

  ghost predicate AllSound(kind: Command -> Kind, items: seq<Item>) {
    forall i :: 0 <= i < |items| ==> Sound(kind, items[i])
  }

  function StepItem(kind: Command -> Kind, st: Loaded, item: Item, end: nat): (st': Loaded) {
    match item
    case Run(argv) => Step(kind, st, argv, end)
    case Annotation(_) => st
  }

  /** The state after a whole log, item by item. */
  function Play(kind: Command -> Kind, items: seq<Item>): (st: Loaded) {
    if items == [] then START
    else StepItem(kind, Play(kind, items[..|items| - 1]), items[|items| - 1], |EncodeAll(items)|)
  }

  lemma AnnotationReads(text: seq<Byte>, t: seq<Byte>)
    requires LF !in text
    ensures var s := EncodeItem(Annotation(text));
      s + t != [] && ReadItem(s + t).Got? && ReadItem(s + t).value.Annotation? && ReadItem(s + t).used == |s|
  {
    LineOf(EncodeItem(Annotation(text)), t);
  }

  /** Reading one encoded item is one step. */
  lemma ScanItem(kind: Command -> Kind, item: Item, t: seq<Byte>, pos: nat, st: Loaded)
    requires Sound(kind, item)
    ensures Scan(kind, EncodeItem(item) + t, pos, st) == Scan(kind, t, pos + |EncodeItem(item)|,
        StepItem(kind, st, item, pos + |EncodeItem(item)|))
  {
    hide ReadItem, Step;
    var s := EncodeItem(item);
    assert (s + t)[|s|..] == t;
    match item
    case Run(argv) =>
      EncodedNotEmpty(argv);
      CommandReads(argv, t);
    case Annotation(text) =>
      AnnotationReads(text, t);
  }

  lemma EncodedNotEmpty(argv: Command)
    ensures EncodeCommand(argv) != [] && EncodeCommand(argv)[0] == STAR
  {
  }

  /** An encoded log is scanned item by item, whatever follows it. */
  lemma {:induction false} ScanEncoded(kind: Command -> Kind, items: seq<Item>, t: seq<Byte>)
    requires AllSound(kind, items)
    ensures Scan(kind, EncodeAll(items) + t, 0, START) == Scan(kind, t, |EncodeAll(items)|, Play(kind, items))
  {
    hide Scan, EncodeItem, StepItem;
    if items == [] {
      assert EncodeAll(items) + t == t;
    } else {
      var front, x := items[..|items| - 1], items[|items| - 1];
      assert EncodeAll(items) + t == EncodeAll(front) + (EncodeItem(x) + t);
      ScanEncoded(kind, front, EncodeItem(x) + t);
      ScanItem(kind, x, t, |EncodeAll(front)|, Play(kind, front));
    }
  }

  // ----- Transactions, as the log shows them -----

  predicate Opens(kind: Command -> Kind, item: Item) {
    item.Run? && kind(item.argv) == Multi
  }

  predicate Closes(kind: Command -> Kind, item: Item) {
    item.Run? && kind(item.argv) == Exec
  }

  /** MULTI is not used inside a transaction: between any two there is an EXEC. */
  ghost predicate Flat(kind: Command -> Kind, items: seq<Item>) {
    forall i, j :: 0 <= i < j < |items| && Opens(kind, items[i]) && Opens(kind, items[j]) ==> ClosedIn(kind, items, i, j)
  }

  ghost predicate ClosedIn(kind: Command -> Kind, items: seq<Item>, i: nat, j: nat)
    requires i < j <= |items|
  {
    exists e :: i < e < j && Closes(kind, items[e])
  }

  /** The commands of a log in order, without the MULTI and EXEC around them. */
  function Commands(kind: Command -> Kind, items: seq<Item>): (cmds: seq<Command>) {
    if items == [] then []
    else
      var x := items[|items| - 1];
      Commands(kind, items[..|items| - 1]) + if x.Run? && kind(x.argv) == Plain then [x.argv] else []
  }

  /** Where the transaction begins that the log leaves open, or the end of the log: every MULTI before it is closed. */
  function OpenFrom(kind: Command -> Kind, items: seq<Item>): (t: nat)
    ensures t <= |items| && (t < |items| ==> Opens(kind, items[t]) && !ClosedIn(kind, items, t, |items|))
    ensures forall i :: 0 <= i < t && Opens(kind, items[i]) ==> ClosedIn(kind, items, i, |items|)
  {
    if items == [] then 0
    else
      var front, x := items[..|items| - 1], items[|items| - 1];
      var t := OpenFrom(kind, front);
      ClosedFront(kind, items);
      if Closes(kind, x) then |items| else if t < |front| then t else if Opens(kind, x) then |front| else |items|
  }

  lemma ClosedFront(kind: Command -> Kind, items: seq<Item>)
    requires items != []
    ensures var n := |items| - 1; forall i: nat :: i < n ==>
        (ClosedIn(kind, items, i, |items|) <==> Closes(kind, items[n]) || ClosedIn(kind, items[..n], i, n))
  {
    var n := |items| - 1;
    var front := items[..n];
    forall i: nat | i < |front|
      ensures ClosedIn(kind, items, i, |items|) <==> Closes(kind, items[n]) || ClosedIn(kind, front, i, n)
    {
      if e :| i < e < |items| && Closes(kind, items[e]) {
        assert e < n ==> front[e] == items[e];
      }
      if e :| i < e < n && Closes(kind, front[e]) {
        assert items[e] == front[e];
      }
    }
  }

  lemma FlatFront(kind: Command -> Kind, items: seq<Item>)
    requires Flat(kind, items) && items != []
    ensures Flat(kind, items[..|items| - 1])
    ensures Opens(kind, items[|items| - 1]) ==> OpenFrom(kind, items[..|items| - 1]) == |items| - 1
  {
    hide OpenFrom;
    var n := |items| - 1;
    var front := items[..n];
    forall i, j | 0 <= i < j <= n && Opens(kind, items[i]) && Opens(kind, items[j])
      ensures j < n ==> ClosedIn(kind, front, i, j)
      ensures j == n ==> ClosedIn(kind, front, i, n)
    {
      var e :| i < e < j && Closes(kind, items[e]);
      assert front[e] == items[e];
    }
    assert forall i :: 0 <= i < n ==> front[i] == items[i];
  }

  lemma FlatPrefix(kind: Command -> Kind, items: seq<Item>, k: nat)
    requires Flat(kind, items) && k <= |items|
    ensures Flat(kind, items[..k])
  {
    var front := items[..k];
    forall i, j | 0 <= i < j < k && Opens(kind, front[i]) && Opens(kind, front[j]) ensures ClosedIn(kind, front, i, j) {
      assert ClosedIn(kind, items, i, j);
      var e :| i < e < j && Closes(kind, items[e]);
      assert front[e] == items[e];
    }
  }

  lemma CommandsMore(kind: Command -> Kind, items: seq<Item>, x: Item)
    ensures Commands(kind, items + [x]) == Commands(kind, items) + if x.Run? && kind(x.argv) == Plain then [x.argv] else []
  {
    assert (items + [x])[..|items|] == items;
  }

  lemma {:induction false} CommandsSplit(kind: Command -> Kind, items: seq<Item>, t: nat)
    requires t <= |items|
    ensures Commands(kind, items) == Commands(kind, items[..t]) + Commands(kind, items[t..])
  {
    hide Commands;
    NoCommands(kind);
    if t == |items| {
      assert items[..t] == items && items[t..] == [];
    } else {
      var front, x := items[..|items| - 1], items[|items| - 1];
      CommandsSplit(kind, front, t);
      assert front[..t] == items[..t] && items[t..] == front[t..] + [x] && items == front + [x];
      CommandsMore(kind, front, x);
      CommandsMore(kind, front[t..], x);
    }
  }

  /** What has been run and queued of a log. */
  ghost predicate Accounts(kind: Command -> Kind, items: seq<Item>, st: Loaded) {
    var t := OpenFrom(kind, items);
    && st.executed == Commands(kind, items[..t]) && st.queued == Commands(kind, items[t..])
    && st.inMulti == (t < |items|)
  }

  lemma OpenNext(kind: Command -> Kind, items: seq<Item>, x: Item)
    ensures var t := OpenFrom(kind, items);
      OpenFrom(kind, items + [x]) ==
        if Closes(kind, x) then |items| + 1 else if t < |items| then t else if Opens(kind, x) then |items| else |items| + 1
  {
    hide ClosedIn;
    assert (items + [x])[..|items|] == items;
  }

  lemma AccountsNext(kind: Command -> Kind, items: seq<Item>, x: Item, st: Loaded, end: nat)
    requires Accounts(kind, items, st) && Sound(kind, x) && (Opens(kind, x) ==> OpenFrom(kind, items) == |items|)
    ensures Accounts(kind, items + [x], StepItem(kind, st, x, end))
  {
    hide ClosedIn, OpenFrom, Commands;
    var items', t := items + [x], OpenFrom(kind, items);
    OpenNext(kind, items, x);
    CommandsMore(kind, items, x);
    NoCommands(kind);
    assert items'[..|items'|] == items' && items'[|items'|..] == [] && items[..|items|] == items && items[|items|..] == [];
    if Closes(kind, x) {
      CommandsSplit(kind, items, t);
    } else if t < |items| {
      assert items'[..t] == items[..t] && items'[t..] == items[t..] + [x];
      CommandsMore(kind, items[t..], x);
    } else if Opens(kind, x) {
      assert items'[..|items|] == items && items'[|items|..] == [] + [x];
      CommandsMore(kind, [], x);
    }
  }

  lemma AccountsNothing(kind: Command -> Kind)
    ensures Accounts(kind, [], Play(kind, []))
  {
  }

  lemma NoCommands(kind: Command -> Kind)
    ensures Commands(kind, []) == []
  {
  }

  /**
    What a log runs: its commands in order, outside transactions and inside closed ones, and
    nothing of a transaction that it leaves open, whose commands are still queued.
  */
  lemma {:induction false} ExecutedIs(kind: Command -> Kind, items: seq<Item>)
    requires AllSound(kind, items) && Flat(kind, items)
    ensures var st, t := Play(kind, items), OpenFrom(kind, items);
      && st.executed == Commands(kind, items[..t]) && st.queued == Commands(kind, items[t..])
      && st.inMulti == (t < |items|)
  {
    hide EncodeAll, Play, StepItem, Flat, ClosedIn, OpenFrom, Commands, AllSound, Sound;
    if items == [] {
      AccountsNothing(kind);
    } else {
      var front, x := items[..|items| - 1], items[|items| - 1];
      SoundFront(kind, items);
      FlatFront(kind, items);
      ExecutedIs(kind, front);
      AccountsNext(kind, front, x, Play(kind, front), |EncodeAll(items)|);
      assert front + [x] == items;
      PlayNext(kind, front, x);
    }
  }

  /** Loading an encoded log runs all of it but a transaction left open. */
  lemma EncodedLoads(kind: Command -> Kind, items: seq<Item>)
    requires AllSound(kind, items)
    ensures Scan(kind, EncodeAll(items), 0, START) == (Play(kind, items), AtEnd)
    ensures Flat(kind, items) ==> var st, t := Scan(kind, EncodeAll(items), 0, START).0, OpenFrom(kind, items);
      && st.executed == Commands(kind, items[..t]) && st.queued == Commands(kind, items[t..])
      && st.inMulti == (t < |items|) && st.valid == |EncodeAll(items[..LastRun(items)])|
      && (t < |items| ==> st.beforeMulti == |EncodeAll(items[..LastRun(items[..t])])|)
  {
    hide Scan, Play, EncodeAll, Flat, OpenFrom, Commands;
    ScanEncoded(kind, items, []);
    assert EncodeAll(items) + [] == EncodeAll(items);
    ScanStops(kind, |EncodeAll(items)|, Play(kind, items));
    ValidIsLastRun(kind, items);
    if Flat(kind, items) {
      ExecutedIs(kind, items);
      if OpenFrom(kind, items) < |items| {
        BeforeMulti(kind, items);
      }
    }
  }

  /** A command that the loader accepts. */
  predicate Loads(kind: Command -> Kind, argv: Command) {
    argv != [] && kind(argv) != Unknown
  }

  /** The loader stops at a command that is empty or unknown, so that encoding is undone exactly when there is none. */
  lemma EncodedLoadsIff(kind: Command -> Kind, cmds: seq<Command>)
    ensures Scan(kind, EncodeAll(Runs(cmds)), 0, START) == (Play(kind, Runs(cmds)), AtEnd) <==>
        forall i :: 0 <= i < |cmds| ==> Loads(kind, cmds[i])
  {
    hide Scan, Play, EncodeAll;
    if i: nat :| i < |cmds| && !Loads(kind, cmds[i]) {
      var first := FirstStop(kind, cmds, i);
      var items := Runs(cmds);
      EncodeAppend(items[..first], items[first..]);
      assert items == items[..first] + items[first..];
      ScanEncoded(kind, items[..first], EncodeAll(items[first..]));
      assert items[first..] == Runs(cmds[first..]);
      EncodeFirst(cmds[first..]);
      ScanRefused(kind, cmds[first], EncodeAll(Runs(cmds[first..][1..])), |EncodeAll(items[..first])|,
        Play(kind, items[..first]));
    } else {
      EncodedLoads(kind, Runs(cmds));
    }
  }

  lemma {:induction false} FirstStop(kind: Command -> Kind, cmds: seq<Command>, i: nat) returns (first: nat)
    requires i < |cmds| && !Loads(kind, cmds[i])
    ensures first < |cmds| && !Loads(kind, cmds[first]) && forall j :: 0 <= j < first ==> Loads(kind, cmds[j])
  {
    if j: nat :| j < i && !Loads(kind, cmds[j]) {
      first := FirstStop(kind, cmds, j);
    } else {
      first := i;
    }
  }

  lemma ScanRefused(kind: Command -> Kind, argv: Command, t: seq<Byte>, pos: nat, st: Loaded)
    requires !Loads(kind, argv)
    ensures Scan(kind, Header(STAR, |argv|) + (EncodeArgs(argv) + t), pos, st).1 in {Malformed, Refused}
  {
    if argv == [] {
      EmptyStops(kind, t, pos, st);
    } else {
      hide ReadItem;
      assert Header(STAR, |argv|) + (EncodeArgs(argv) + t) == EncodeCommand(argv) + t;
      EncodedNotEmpty(argv);
      CommandReads(argv, t);
    }
  }

  lemma EmptyStops(kind: Command -> Kind, t: seq<Byte>, pos: nat, st: Loaded)
    ensures Scan(kind, Header(STAR, 0) + (EncodeArgs([]) + t), pos, st) == (st, Malformed)
  {
    assert Header(STAR, 0) + (EncodeArgs([]) + t) == EncodeCommand([]) + t;
    EmptyCommandRejected(t);
  }

  // ----- Cut logs -----

  /** How many whole items the first p bytes hold. */
  function Whole(items: seq<Item>, p: nat): (k: nat)
    ensures k <= |items| && |EncodeAll(items[..k])| <= p
    ensures k < |items| ==> p < |EncodeAll(items[..k + 1])|
  {
    if items == [] || |EncodeAll(items)| <= p then
      assert items[..|items|] == items; |items|
    else
      var front := items[..|items| - 1];
      var k := Whole(front, p);
      WholePrefix(items, k);
      k
  }

  lemma WholePrefix(items: seq<Item>, k: nat)
    requires items != [] && k <= |items| - 1
    ensures var front := items[..|items| - 1];
      && front[..k] == items[..k] && (k < |front| ==> front[..k + 1] == items[..k + 1]) && (k == |front| ==>
          items[..k + 1] == items)
  {
  }

  lemma {:induction false} EncodeSplit(items: seq<Item>, k: nat)
    requires k <= |items|
    ensures |EncodeAll(items[..k])| <= |EncodeAll(items)| && EncodeAll(items)[..|EncodeAll(items[..k])|] == EncodeAll(items[..k])
  {
    if k == |items| {
      assert items[..k] == items;
    } else {
      var front := items[..|items| - 1];
      EncodeSplit(front, k);
      assert front[..k] == items[..k];
    }
  }

  /** A cut log is its whole items and part of the next one. */
  ghost predicate IsCut(items: seq<Item>, cut: seq<Byte>, k: nat, part: seq<Byte>) {
    && k <= |items| && cut == EncodeAll(items[..k]) + part
    && if k < |items| then part < EncodeItem(items[k]) else part == []
  }

  lemma CutIs(items: seq<Item>, p: nat) returns (part: seq<Byte>)
    requires p <= |EncodeAll(items)|
    ensures IsCut(items, EncodeAll(items)[..p], Whole(items, p), part)
  {
    hide EncodeItem, Whole, EncodeAll;
    var k := Whole(items, p);
    var e := EncodeAll(items[..k]);
    EncodeSplit(items, k);
    part := EncodeAll(items)[|e|..p];
    assert EncodeAll(items)[..p] == e + part;
    if k < |items| {
      EncodeSplit(items, k + 1);
      EncodeNext(items, k);
      PartOfNext(EncodeAll(items), e, EncodeItem(items[k]), p);
    } else {
      assert items[..k] == items;
    }
  }

  lemma PartOfNext(all: seq<Byte>, e: seq<Byte>, next: seq<Byte>, p: nat)
    requires e + next <= all && |e| <= p < |e| + |next|
    ensures all[|e|..p] < next
  {
    assert (e + next)[|e|..p] == next[..p - |e|];
    assert all[..p] == (e + next)[..p];
  }

  lemma EncodeNext(items: seq<Item>, k: nat)
    requires k < |items|
    ensures EncodeAll(items[..k + 1]) == EncodeAll(items[..k]) + EncodeItem(items[k])
  {
    assert items[..k + 1][..k] == items[..k];
  }

  lemma PartOfAnnotation(text: seq<Byte>, part: seq<Byte>)
    requires LF !in text && part != [] && part < EncodeItem(Annotation(text))
    ensures part[0] == HASH && forall i :: 0 <= i < |part| ==> part[i] != LF
  {
    var s := EncodeItem(Annotation(text));
    assert forall i :: 0 <= i < |part| ==> part[i] == s[i];
  }

  /** The scan of a cut log stops after its whole items; part of an annotation goes unnoticed. */
  lemma CutScan(kind: Command -> Kind, items: seq<Item>, cut: seq<Byte>, k: nat, part: seq<Byte>)
    requires AllSound(kind, items) && IsCut(items, cut, k, part)
    ensures Scan(kind, cut, 0, START) == (Play(kind, items[..k]), if part != [] && items[k].Run? then CutShort else AtEnd)
  {
    hide Play, EncodeAll;
    ScanEncoded(kind, items[..k], part);
    if part != [] {
      assert Sound(kind, items[k]);
      match items[k]
      case Run(argv) =>
        assert part == EncodeCommand(argv)[..|part|];
        CommandCut(argv, |part|);
      case Annotation(text) =>
        PartOfAnnotation(text, part);
        UnfinishedLine(part);
    }
  }

  /** Without transactions and annotations: exactly the whole commands are run, and their end is kept. */
  lemma CutLoads(kind: Command -> Kind, cmds: seq<Command>, p: nat)
    requires forall i :: 0 <= i < |cmds| ==> cmds[i] != [] && kind(cmds[i]) == Plain
    requires p <= |EncodeAll(Runs(cmds))|
    ensures var k := Whole(Runs(cmds), p); var (st, end) := Scan(kind, EncodeAll(Runs(cmds))[..p], 0, START);
      && st.executed == cmds[..k] && st.queued == [] && !st.inMulti
      && st.valid == |EncodeAll(Runs(cmds[..k]))|
      && end == (if st.valid == p then AtEnd else CutShort)
      && Finish(st, end, p, true) == (if st.valid == p then (Ok, p) else (Truncated, st.valid))
  {
    hide EncodeAll, EncodeItem, Play, Scan, Whole;
    var items, k := Runs(cmds), Whole(Runs(cmds), p);
    var part := CutIs(items, p);
    CutScan(kind, items, EncodeAll(items)[..p], k, part);
    assert items[..k] == Runs(cmds[..k]);
    PlainPlay(kind, cmds[..k]);
  }

  /**
    With transactions and annotations: the commands of the whole items are run but those of a transaction left
    open. A cut in a command keeps the log up to the last whole command; otherwise an open transaction goes.
  */
  lemma CutRuns(kind: Command -> Kind, items: seq<Item>, p: nat)
    requires AllSound(kind, items) && Flat(kind, items) && p <= |EncodeAll(items)|
    ensures var k := Whole(items, p); var t := OpenFrom(kind, items[..k]);
      var (st, end) := Scan(kind, EncodeAll(items)[..p], 0, START);
      && st.executed == Commands(kind, items[..t]) && st.queued == Commands(kind, items[t..k])
      && Finish(st, end, p, true) ==
        if k < |items| && items[k].Run? && |EncodeAll(items[..k])| < p then
          (Truncated, |EncodeAll(items[..LastRun(items[..k])])|)
        else if t < k then (Truncated, |EncodeAll(items[..LastRun(items[..t])])|)
        else (Ok, p)
  {
    hide EncodeAll, EncodeItem, Play, Scan, Whole, OpenFrom, Commands, Flat;
    var k := Whole(items, p);
    var part := CutIs(items, p);
    CutScan(kind, items, EncodeAll(items)[..p], k, part);
    var front := items[..k];
    var t := OpenFrom(kind, front);
    FlatPrefix(kind, items, k);
    ExecutedIs(kind, front);
    ValidIsLastRun(kind, front);
    assert front[..t] == items[..t] && front[t..] == items[t..k] && front[..LastRun(front)] == items[..LastRun(front)];
    if t < k {
      BeforeMulti(kind, front);
      assert front[..LastRun(items[..t])] == items[..LastRun(items[..t])];
    }
  }

  /** Loading a file that is a log or the beginning of one. */
  method LoadLog(kind: Command -> Kind, ghost items: seq<Item>, file: seq<Byte>)
    returns (status: Status, st: Loaded, kept: seq<Byte>)
    requires AllSound(kind, items) && Flat(kind, items) && file != [] && file <= EncodeAll(items)
    ensures var k := Whole(items, |file|); var t := OpenFrom(kind, items[..k]); var j := LastRun(items[..k]);
      && st.executed == Commands(kind, items[..t])
      && if k < |items| && items[k].Run? && EncodeAll(items[..k]) != file then
          status == Truncated && kept == EncodeAll(items[..j])
        else if t < k then status == Truncated && kept == EncodeAll(items[..LastRun(items[..t])])
        else status == Ok && kept == file
  {
    hide EncodeAll, EncodeItem, Scan, Whole, OpenFrom, Commands, Flat;
    status, st, kept := LoadFile(kind, file, true, true);
    ghost var k := Whole(items, |file|);
    CutRuns(kind, items, |file|);
    ghost var part := CutIs(items, |file|);
    assert EncodeAll(items)[..|file|] == file;
    ghost var t := OpenFrom(kind, items[..k]);
    KeptPrefix(items, file, LastRun(items[..k]));
    KeptPrefix(items, file, LastRun(items[..t]));
  }

  lemma KeptPrefix(items: seq<Item>, file: seq<Byte>, j: nat)
    requires file <= EncodeAll(items) && j <= |items|
    ensures |EncodeAll(items[..j])| <= |file| ==> file[..|EncodeAll(items[..j])|] == EncodeAll(items[..j])
  {
    EncodeSplit(items, j);
  }

  function Runs(cmds: seq<Command>): (items: seq<Item>)
    ensures |items| == |cmds| && forall i :: 0 <= i < |cmds| ==> items[i] == Run(cmds[i])
  {
    seq(|cmds|, i requires 0 <= i < |cmds| => Run(cmds[i]))
  }

  lemma {:induction false} PlainPlay(kind: Command -> Kind, cmds: seq<Command>)
    requires forall i :: 0 <= i < |cmds| ==> kind(cmds[i]) == Plain
    ensures Play(kind, Runs(cmds)) == Loaded(cmds, [], false, |EncodeAll(Runs(cmds))|, 0)
  {
    hide EncodeItem;
    if cmds == [] {
      assert Runs(cmds) == [];
    } else {
      hide Play, EncodeAll;
      var front, x := cmds[..|cmds| - 1], cmds[|cmds| - 1];
      PlainPlay(kind, front);
      assert Runs(cmds) == Runs(front) + [Run(x)];
      PlayNext(kind, Runs(front), Run(x));
      assert front + [x] == cmds;
    }
  }

  // ----- Continuing a log that was cut -----

  /** The items up to the last command. */
  function LastRun(items: seq<Item>): (j: nat)
    ensures j <= |items|
  {
    if items == [] then 0 else if items[|items| - 1].Run? then |items| else LastRun(items[..|items| - 1])
  }

  /** valid_up_to is the end of the last command, and nothing after it matters. */
  lemma {:induction false} ValidIsLastRun(kind: Command -> Kind, items: seq<Item>)
    ensures var j := LastRun(items);
      Play(kind, items).valid == |EncodeAll(items[..j])| && Play(kind, items[..j]) == Play(kind, items)
  {
    if items != [] {
      var front := items[..|items| - 1];
      if items[|items| - 1].Run? {
        assert items[..|items|] == items;
      } else {
        ValidIsLastRun(kind, front);
        assert front[..LastRun(front)] == items[..LastRun(front)];
      }
    }
  }

  /** In an open transaction the other offset is where the last command before it ended. */
  lemma {:induction false} BeforeMulti(kind: Command -> Kind, items: seq<Item>)
    requires AllSound(kind, items) && Flat(kind, items) && OpenFrom(kind, items) < |items|
    ensures var j := LastRun(items[..OpenFrom(kind, items)]);
      && Play(kind, items).beforeMulti == |EncodeAll(items[..j])|
      && Play(kind, items[..j]).executed == Play(kind, items).executed && !Play(kind, items[..j]).inMulti
  {
    hide EncodeAll, EncodeItem, Flat, ClosedIn, Commands, AllSound;
    var front, x := items[..|items| - 1], items[|items| - 1];
    assert Sound(kind, x) && AllSound(kind, front) by { SoundFront(kind, items); }
    FlatFront(kind, items);
    ExecutedIs(kind, front);
    var t := OpenFrom(kind, front);
    if t < |front| {
      BeforeMulti(kind, front);
      assert items[..t] == front[..t];
    } else {
      ValidIsLastRun(kind, front);
    }
    assert front[..LastRun(front[..t])] == items[..LastRun(front[..t])];
    assert t == |front| ==> front[..t] == front;
  }

  lemma SoundFront(kind: Command -> Kind, items: seq<Item>)
    requires AllSound(kind, items) && items != []
    ensures AllSound(kind, items[..|items| - 1]) && Sound(kind, items[|items| - 1])
  {
  }

  lemma {:induction false} EncodeAppend(a: seq<Item>, b: seq<Item>)
    ensures EncodeAll(a + b) == EncodeAll(a) + EncodeAll(b)
  {
    hide EncodeItem, EncodeAll;
    NothingEncoded();
    if b == [] {
      assert a + b == a;
    } else {
      var front, x := b[..|b| - 1], b[|b| - 1];
      EncodeAppend(a, front);
      assert a + b == (a + front) + [x] && b == front + [x];
      EncodeLast(a + front, x);
      EncodeLast(front, x);
      Regroup(EncodeAll(a), EncodeAll(front), EncodeItem(x));
    }
  }

  lemma EncodeLast(items: seq<Item>, x: Item)
    ensures EncodeAll(items + [x]) == EncodeAll(items) + EncodeItem(x)
  {
    assert (items + [x])[..|items|] == items;
  }

  /** Plain commands are run outside a transaction and queued inside one. */
  lemma {:induction false} PlayMore(kind: Command -> Kind, items: seq<Item>, more: seq<Command>)
    requires forall i :: 0 <= i < |more| ==> kind(more[i]) == Plain
    ensures var st, st' := Play(kind, items), Play(kind, items + Runs(more));
      st'.inMulti == st.inMulti && st'.executed == if st.inMulti then st.executed else st.executed + more
  {
    hide EncodeAll, EncodeItem, Play, Runs;
    if more == [] {
      NoRuns();
      assert items + Runs(more) == items;
    } else {
      var front, x := more[..|more| - 1], more[|more| - 1];
      PlayMore(kind, items, front);
      RunsMore(items, more);
      PlayNext(kind, items + Runs(front), Run(x));
      var done := Play(kind, items).executed;
      assert (done + front) + [x] == done + more;
    }
  }

  lemma NoRuns()
    ensures Runs([]) == []
  {
  }

  lemma RunsMore(items: seq<Item>, more: seq<Command>)
    requires more != []
    ensures items + Runs(more) == (items + Runs(more[..|more| - 1])) + [Run(more[|more| - 1])]
  {
    assert Runs(more) == Runs(more[..|more| - 1]) + [Run(more[|more| - 1])];
  }

  lemma PlayNext(kind: Command -> Kind, items: seq<Item>, x: Item)
    ensures Play(kind, items + [x]) == StepItem(kind, Play(kind, items), x, |EncodeAll(items + [x])|)
  {
    hide EncodeAll, StepItem;
    assert (items + [x])[..|items|] == items;
  }

  /** The file that a load with aof-load-truncated leaves behind. */
  ghost function Kept(kind: Command -> Kind, file: seq<Byte>): (kept: seq<Byte>) {
    var (st, end) := Scan(kind, file, 0, START);
    ScanWithin(kind, file, 0, START);
    file[..Finish(st, end, |file|, true).1]
  }

  /** Commands appended to the file that is left are run by the next load, after what was run before. */
  ghost predicate Continues(kind: Command -> Kind, file: seq<Byte>, more: seq<Command>) {
    var st := Scan(kind, file, 0, START).0;
    var (st', end') := Scan(kind, Kept(kind, file) + EncodeAll(Runs(more)), 0, START);
    end' == AtEnd && !st'.inMulti && st'.executed == st.executed + more
  }

  ghost predicate PlainCommands(kind: Command -> Kind, more: seq<Command>) {
    forall i :: 0 <= i < |more| ==> more[i] != [] && kind(more[i]) == Plain
  }

  /** Where the whole items up to j are kept, the next load goes on from their state. */
  lemma KeptItems(kind: Command -> Kind, items: seq<Item>, j: nat, more: seq<Command>)
    requires AllSound(kind, items) && j <= |items| && PlainCommands(kind, more)
    ensures Scan(kind, EncodeAll(items[..j]) + EncodeAll(Runs(more)), 0, START) == (Play(kind, items[..j] + Runs(more)), AtEnd)
    ensures var st, st' := Play(kind, items[..j]), Play(kind, items[..j] + Runs(more));
      st'.inMulti == st.inMulti && st'.executed == if st.inMulti then st.executed else st.executed + more
  {
    hide Scan, Play, EncodeAll;
    EncodeAppend(items[..j], Runs(more));
    EncodedLoads(kind, items[..j] + Runs(more));
    PlayMore(kind, items[..j], more);
  }

  /** After part of an annotation the next command's header is swallowed and its arguments are malformed. */
  lemma GluedAnnotation(kind: Command -> Kind, items: seq<Item>, k: nat, part: seq<Byte>, more: seq<Command>)
    requires AllSound(kind, items) && k < |items| && items[k].Annotation? && part != [] && part < EncodeItem(items[k])
    requires PlainCommands(kind, more) && more != []
    ensures Scan(kind, EncodeAll(items[..k]) + part + EncodeAll(Runs(more)), 0, START).1 == Malformed
  {
    hide EncodeAll, Play;
    assert Sound(kind, items[k]);
    PartOfAnnotation(items[k].text, part);
    var h, rest := Header(STAR, |more[0]|), EncodeArgs(more[0]) + EncodeAll(Runs(more[1..]));
    EncodeFirst(more);
    var s := part + EncodeAll(Runs(more));
    assert s == (part + h) + rest;
    LineOf(part + h, rest);
    assert s[|part + h|..] == rest;
    ArgsStart(more[0], EncodeAll(Runs(more[1..])));
    ScanEncoded(kind, items[..k], s);
    assert EncodeAll(items[..k]) + part + EncodeAll(Runs(more)) == EncodeAll(items[..k]) + s;
  }

  lemma EncodeFirst(more: seq<Command>)
    requires more != []
    ensures EncodeAll(Runs(more)) == Header(STAR, |more[0]|) + (EncodeArgs(more[0]) + EncodeAll(Runs(more[1..])))
  {
    hide Header, EncodeArgs, EncodeAll;
    assert Runs(more) == [Run(more[0])] + Runs(more[1..]);
    EncodeAppend([Run(more[0])], Runs(more[1..]));
    EncodeOne(Run(more[0]));
    Regroup(Header(STAR, |more[0]|), EncodeArgs(more[0]), EncodeAll(Runs(more[1..])));
  }

  lemma EncodeOne(x: Item)
    ensures EncodeAll([x]) == EncodeItem(x)
  {
    assert [x][..0] == [] && [] + EncodeItem(x) == EncodeItem(x);
  }

  lemma Regroup(a: seq<Byte>, b: seq<Byte>, c: seq<Byte>)
    ensures (a + b) + c == a + (b + c)
  {
  }

  lemma ArgsStart(argv: Command, t: seq<Byte>)
    requires argv != []
    ensures EncodeArgs(argv) + t != [] && (EncodeArgs(argv) + t)[0] == DOLLAR
  {
  }

  /**
    A log cut anywhere can be loaded and continued unless the cut falls inside an
    annotation outside a transaction, or inside a command within one.
  */
  lemma CutContinuesIff(kind: Command -> Kind, items: seq<Item>, cut: seq<Byte>, k: nat, part: seq<Byte>, more: seq<Command>)
    requires AllSound(kind, items) && Flat(kind, items) && IsCut(items, cut, k, part) && PlainCommands(kind, more) && more != []
    ensures Continues(kind, cut, more) <==>
      part == [] || (items[k].Run? <==> OpenFrom(kind, items[..k]) == k)
  {
    hide Scan, Play, EncodeAll, EncodeItem, OpenFrom, Commands, Flat;
    CutScan(kind, items, cut, k, part);
    var st := Play(kind, items[..k]);
    assert AllSound(kind, items[..k]);
    FlatPrefix(kind, items, k);
    ExecutedIs(kind, items[..k]);
    if part != [] && items[k].Run? {
      ValidIsLastRun(kind, items[..k]);
      var j := LastRun(items[..k]);
      EncodeSplit(items[..k], j);
      assert items[..k][..j] == items[..j];
      assert Kept(kind, cut) == EncodeAll(items[..j]);
      KeptItems(kind, items, j, more);
    } else if st.inMulti {
      BeforeMulti(kind, items[..k]);
      var j := LastRun(items[..k][..OpenFrom(kind, items[..k])]);
      EncodeSplit(items[..k], j);
      assert items[..k][..j] == items[..j];
      assert Kept(kind, cut) == EncodeAll(items[..j]);
      KeptItems(kind, items, j, more);
    } else {
      assert Kept(kind, cut) == cut;
      if part == [] {
        assert cut == EncodeAll(items[..k]);
        KeptItems(kind, items, k, more);
      } else {
        GluedAnnotation(kind, items, k, part, more);
      }
    }
  }

  /** The smallest such logs: a transaction cut in its first command, and a cut annotation. */
  lemma CutsThatDoNotContinue(kind: Command -> Kind, multi: Command, cmd: Command)
    requires multi != [] && cmd != [] && kind(multi) == Multi && kind(cmd) == Plain
    ensures !Continues(kind, EncodeAll([Run(multi)]) + [STAR], [cmd])
    ensures !Continues(kind, [HASH], [cmd])
  {
    hide EncodeAll, Continues;
    var items := [Run(multi), Run(cmd)];
    assert items[..1] == [Run(multi)] && [Run(multi)][..0] == [];
    assert Play(kind, items[..0]) == START;
    PlayNext(kind, [], Run(multi));
    assert [] + [Run(multi)] == [Run(multi)];
    EncodedNotEmpty(cmd);
    assert [STAR] < EncodeItem(Run(cmd)) by {
      assert |EncodeCommand(cmd)| >= |Header(STAR, |cmd|)| > 1;
    }
    CutContinuesIff(kind, items, EncodeAll([Run(multi)]) + [STAR], 1, [STAR], [cmd]);
    var notes := [Annotation([])];
    assert notes[..0] == [] && EncodeAll([]) + [HASH] == [HASH] by { NothingEncoded(); }
    CutContinuesIff(kind, notes, [HASH], 0, [HASH], [cmd]);
  }

  lemma NothingEncoded()
    ensures EncodeAll([]) == []
  {
  }
}
