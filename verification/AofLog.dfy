/**
  The text of the append-only file: the encoder of commands, the loader's scanner, and
  what is left of a log that a crash cut at any byte.
*/
module AofLog {
  import opened Common

  const CR: Byte := 13
  const LF: Byte := 10
  const STAR: Byte := 42
  const DOLLAR: Byte := 36
  const HASH: Byte := 35
  const MINUS: Byte := 45

  const CRLF: seq<Byte> := [CR, LF]

  type Command = seq<seq<Byte>>

  /** A log holds commands and, when timestamps are on, annotations. */
  datatype Item = Run(argv: Command) | Annotation(text: seq<Byte>)

  // ----- The encoder -----

  function Digits(n: nat): (s: seq<Byte>)
    ensures |s| > 0 && forall i :: 0 <= i < |s| ==> 48 <= s[i] <= 57
    ensures n > 0 ==> s[0] != 48
  {
    if n < 10 then [48 + n] else Digits(n / 10) + [48 + n % 10]
  }

  function Header(mark: Byte, n: nat): (s: seq<Byte>) {
    [mark] + Digits(n) + CRLF
  }

  function EncodeArg(arg: seq<Byte>): (s: seq<Byte>) {
    Header(DOLLAR, |arg|) + arg + CRLF
  }

  function EncodeArgs(args: seq<seq<Byte>>): (s: seq<Byte>) {
    if args == [] then [] else EncodeArg(args[0]) + EncodeArgs(args[1..])
  }

  function EncodeCommand(argv: Command): (s: seq<Byte>) {
    Header(STAR, |argv|) + EncodeArgs(argv)
  }

  function EncodeItem(item: Item): (s: seq<Byte>) {
    match item
    case Run(argv) => EncodeCommand(argv)
    case Annotation(text) => [HASH] + text + CRLF
  }

  function EncodeAll(items: seq<Item>): (s: seq<Byte>) {
    if items == [] then [] else EncodeAll(items[..|items| - 1]) + EncodeItem(items[|items| - 1])
  }

  /** catAppendOnlyGenericCommand. */
  method CatCommand(dst: seq<Byte>, argv: Command) returns (r: seq<Byte>)
    ensures r == dst + EncodeCommand(argv)
  {
    r := dst + Header(STAR, |argv|);
    assert r + EncodeArgs(argv[0..]) == dst + EncodeCommand(argv) by {
      assert argv[0..] == argv;
    }
    for j := 0 to |argv|
      invariant r + EncodeArgs(argv[j..]) == dst + EncodeCommand(argv)
    {
      assert argv[j..][1..] == argv[j + 1..];
      ghost var before := r;
      r := r + Header(DOLLAR, |argv[j]|);
      r := r + argv[j];
      r := r + CRLF;
      assert r + EncodeArgs(argv[j + 1..]) == before + (EncodeArg(argv[j]) + EncodeArgs(argv[j + 1..]));
    }
    assert r + [] == r;
  }

  // ----- The scanner -----

  /** The length of the line that fgets reads. */
  function LineLength(s: seq<Byte>): (n: nat)
    ensures n <= |s| && (s != [] ==> n > 0)
  {
    if s == [] then 0 else if s[0] == LF then 1 else 1 + LineLength(s[1..])
  }

  /** The number that leading digits denote, continuing acc. */
  function Leading(s: seq<Byte>, acc: nat): (n: nat) {
    if s != [] && 48 <= s[0] <= 57 then Leading(s[1..], acc * 10 + (s[0] - 48)) else acc
  }

  function Number(s: seq<Byte>): (n: int) {
    if s != [] && s[0] == MINUS then 0 - Leading(s[1..], 0) else Leading(s, 0)
  }

  /** What reading one thing finds: a value and the bytes it took, the end of the file, or bad format. */
  datatype Read<T> = Got(value: T, used: nat) | Short | Bad

  function ReadArg(s: seq<Byte>): (r: Read<seq<Byte>>)
    ensures r.Got? ==> 0 < r.used <= |s|
  {
    if s == [] then Short
    else if s[0] != DOLLAR then Bad
    else
      var n := LineLength(s);
      var len := Number(s[1..n]);
      if len < 0 then Bad
      else if |s| - n < len then Short
      else if |s| - n - len < 2 then Short
      else Got(s[n..n + len], n + len + 2)
  }

  function ReadArgs(s: seq<Byte>, argc: nat): (r: Read<seq<seq<Byte>>>)
    ensures r.Got? ==> r.used <= |s| && |r.value| == argc
  {
    if argc == 0 then Got([], 0)
    else match ReadArg(s)
      case Short => Short
      case Bad => Bad
      case Got(arg, n) =>
        match ReadArgs(s[n..], argc - 1)
        case Short => Short
        case Bad => Bad
        case Got(args, m) => Got([arg] + args, n + m)
  }

  /** One turn of the loader's loop, on a file that is not at its end. */
  function ReadItem(s: seq<Byte>): (r: Read<Item>)
    requires s != []
    ensures r.Got? ==> 0 < r.used <= |s|
  {
    var n := LineLength(s);
    if s[0] == HASH then Got(Annotation(s[1..n]), n)
    else if s[0] != STAR then Bad
    else if n == 1 || s[1] == 0 then (if n == |s| && s[n - 1] != LF then Short else Bad)
    else
      var argc := Number(s[1..n]);
      if argc < 1 then Bad
      else match ReadArgs(s[n..], argc)
        case Short => Short
        case Bad => Bad
        case Got(argv, m) => Got(Run(argv), n + m)
  }

  // ----- Reading back what was encoded -----

  lemma {:induction false} LeadingDigits(n: nat, t: seq<Byte>)
    ensures Leading(Digits(n) + t, 0) == Leading(t, n)
  {
    if n < 10 {
      assert ([48 + n] + t)[1..] == t;
    } else {
      var d: Byte := 48 + n % 10;
      assert Digits(n) + t == Digits(n / 10) + ([d] + t);
      LeadingDigits(n / 10, [d] + t);
      assert ([d] + t)[1..] == t;
    }
  }

  lemma NumberDigits(n: nat, t: seq<Byte>)
    requires t == [] || !(48 <= t[0] <= 57)
    ensures Number(Digits(n) + t) == n
  {
    LeadingDigits(n, t);
    assert (Digits(n) + t)[0] == Digits(n)[0];
  }

  lemma {:induction false} LeadingGrows(s: seq<Byte>, acc: nat)
    ensures Leading(s, acc) >= acc
  {
    if s != [] && 48 <= s[0] <= 57 {
      LeadingGrows(s[1..], acc * 10 + (s[0] - 48));
    }
  }

  /** Part of a number is still a number, and not zero if the whole is not. */
  lemma NumberPart(n: nat, k: nat)
    requires 0 < k <= |Digits(n)|
    ensures Number(Digits(n)[..k]) >= 0 && (n > 0 ==> Number(Digits(n)[..k]) >= 1)
  {
    var s := Digits(n)[..k];
    LeadingGrows(s[1..], s[0] - 48);
  }

  lemma {:induction false} LineOf(s: seq<Byte>, t: seq<Byte>)
    requires s != [] && s[|s| - 1] == LF && forall i :: 0 <= i < |s| - 1 ==> s[i] != LF
    ensures LineLength(s + t) == |s|
  {
    if |s| > 1 {
      LineOf(s[1..], t);
      assert (s + t)[1..] == s[1..] + t;
    }
  }

  lemma {:induction false} UnfinishedLine(s: seq<Byte>)
    requires forall i :: 0 <= i < |s| ==> s[i] != LF
    ensures LineLength(s) == |s|
  {
    if s != [] {
      UnfinishedLine(s[1..]);
    }
  }

  /** A header followed by anything is one line with its number. */
  lemma HeaderReads(mark: Byte, n: nat, t: seq<Byte>)
    requires mark != LF
    ensures var h := Header(mark, n); LineLength(h + t) == |h| && (h + t)[0] == mark && Number((h + t)[1..|h|]) == n
    ensures var h := Header(mark, n); |h| >= 4 && (h + t)[1] != 0
  {
    var h := Header(mark, n);
    LineOf(h, t);
    NumberDigits(n, CRLF);
    assert (h + t)[1..|h|] == Digits(n) + CRLF;
    assert (h + t)[1] == Digits(n)[0];
  }

  /** Part of a header is one unfinished line, with some number. */
  lemma HeaderCut(mark: Byte, n: nat, p: nat)
    requires mark != LF && 0 < p < |Header(mark, n)|
    ensures var s := Header(mark, n)[..p];
      && LineLength(s) == p && s[0] == mark && Number(s[1..]) >= 0
      && (p > 1 && n > 0 ==> Number(s[1..]) >= 1) && (p > 1 ==> s[1] != 0) && s[p - 1] != LF
  {
    var h, d := Header(mark, n), Digits(n);
    var s := h[..p];
    UnfinishedLine(s);
    if p > 1 {
      assert s[1] == d[0];
      if p - 1 <= |d| {
        assert s[1..] == d[..p - 1];
        NumberPart(n, p - 1);
      } else {
        assert s[1..] == d + [CR];
        NumberDigits(n, [CR]);
      }
    }
  }

  lemma ArgReads(arg: seq<Byte>, t: seq<Byte>)
    ensures ReadArg(EncodeArg(arg) + t) == Got(arg, |EncodeArg(arg)|)
  {
    var h, rest := Header(DOLLAR, |arg|), arg + CRLF + t;
    var s := EncodeArg(arg) + t;
    assert s == h + rest;
    HeaderReads(DOLLAR, |arg|, rest);
    assert s[|h|..|h| + |arg|] == arg;
  }

  lemma ArgCut(arg: seq<Byte>, p: nat)
    requires p < |EncodeArg(arg)|
    ensures ReadArg(EncodeArg(arg)[..p]) == Short
  {
    var h := Header(DOLLAR, |arg|);
    var s := EncodeArg(arg)[..p];
    if p == 0 {
    } else if p < |h| {
      assert s == h[..p];
      HeaderCut(DOLLAR, |arg|, p);
    } else {
      assert s == h + s[|h|..];
      HeaderReads(DOLLAR, |arg|, s[|h|..]);
    }
  }

  lemma {:induction false} ArgsRead(args: seq<seq<Byte>>, t: seq<Byte>)
    ensures ReadArgs(EncodeArgs(args) + t, |args|) == Got(args, |EncodeArgs(args)|)
  {
    hide ReadArg, EncodeArg;
    if args == [] {
      assert EncodeArgs(args) == [];
    } else {
      var s, e := EncodeArgs(args) + t, EncodeArg(args[0]);
      assert s == e + (EncodeArgs(args[1..]) + t);
      ArgReads(args[0], EncodeArgs(args[1..]) + t);
      assert s[|e|..] == EncodeArgs(args[1..]) + t;
      ArgsRead(args[1..], t);
      assert [args[0]] + args[1..] == args;
    }
  }

  lemma {:induction false} ArgsCut(args: seq<seq<Byte>>, p: nat)
    requires p < |EncodeArgs(args)|
    ensures ReadArgs(EncodeArgs(args)[..p], |args|) == Short
  {
    hide ReadArg, EncodeArg;
    var s, e := EncodeArgs(args)[..p], EncodeArg(args[0]);
    if p < |e| {
      assert s == e[..p];
      ArgCut(args[0], p);
    } else {
      assert s == e + EncodeArgs(args[1..])[..p - |e|];
      ArgReads(args[0], EncodeArgs(args[1..])[..p - |e|]);
      assert s[|e|..] == EncodeArgs(args[1..])[..p - |e|];
      if p - |e| < |EncodeArgs(args[1..])| {
        ArgsCut(args[1..], p - |e|);
      }
    }
  }

  /** An encoded command is read back, whatever follows. */
  lemma CommandReads(argv: Command, t: seq<Byte>)
    requires argv != []
    ensures ReadItem(EncodeCommand(argv) + t) == Got(Run(argv), |EncodeCommand(argv)|)
  {
    var h, rest := Header(STAR, |argv|), EncodeArgs(argv) + t;
    var s := EncodeCommand(argv) + t;
    assert s == h + rest;
    HeaderReads(STAR, |argv|, rest);
    assert s[|h|..] == rest;
    ArgsRead(argv, t);
  }

  /** Part of an encoded command is recognised as the end of the file. */
  lemma CommandCut(argv: Command, p: nat)
    requires argv != [] && 0 < p < |EncodeCommand(argv)|
    ensures ReadItem(EncodeCommand(argv)[..p]) == Short
  {
    hide LineLength, Number, Header, EncodeArgs, ReadArgs;
    var h := Header(STAR, |argv|);
    var s := EncodeCommand(argv)[..p];
    if p < |h| {
      assert s == h[..p];
      HeaderCut(STAR, |argv|, p);
      assert s[p..] == [];
      assert s[1..p] == s[1..];
      if p > 1 {
        NothingToRead(Number(s[1..]));
      }
    } else {
      var rest := EncodeArgs(argv)[..p - |h|];
      assert s == h + rest;
      HeaderReads(STAR, |argv|, rest);
      assert s[|h|..] == rest;
      ArgsCut(argv, p - |h|);
    }
  }

  lemma NothingToRead(argc: nat)
    requires argc > 0
    ensures ReadArgs([], argc) == Short
  {
  }

  /** A command without arguments is not: the loader rejects its header. */
  lemma EmptyCommandRejected(t: seq<Byte>)
    ensures ReadItem(EncodeCommand([]) + t) == Bad
  {
    assert EncodeCommand([]) + t == Header(STAR, 0) + t;
    HeaderReads(STAR, 0, t);
  }
}
