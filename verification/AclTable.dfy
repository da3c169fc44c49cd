/**
  The command table and the parsing of one selector operation: which rule it is, what
  the rule does, and under which name it is kept.
*/
module AclTable {
  import opened AclRules
  import opened AclText
  import opened AclSplit

  /** The last bit of the bitmap is never given to a command. */
  const RESERVED := 1023

  datatype Sub = Sub(name: string, id: nat, cats: set<string>)

  datatype Cmd = Cmd(name: string, id: nat, cats: set<string>, subs: seq<Sub>)

  datatype Table = Table(cmds: seq<Cmd>, categories: set<string>)

  /** Names are lower case and contain nothing that separates rules or parts of them. */
  ghost predicate GoodName(s: string) {
    s != "" && Lower(s) == s && Plain(s) && '|' !in s && s[0] != '@'
  }

  ghost predicate GoodCmd(c: Cmd) {
    && GoodName(c.name) && c.id < RESERVED
    && (forall j :: 0 <= j < |c.subs| ==> GoodName(c.subs[j].name) && c.subs[j].id < RESERVED)
  }

  /** Identifiers of subcommands are their own. */
  ghost predicate Good(t: Table) {
    && (forall i :: 0 <= i < |t.cmds| ==> GoodCmd(t.cmds[i]))
    && (forall i, k, j :: 0 <= i < |t.cmds| && 0 <= k < |t.cmds| && 0 <= j < |t.cmds[k].subs| ==>
        t.cmds[i].id != t.cmds[k].subs[j].id)
    && (forall cat :: cat in t.categories ==> GoodName(cat) && cat != "all")
  }

  // ----- Lookup -----

  function FindCmd(cmds: seq<Cmd>, name: string): (i: nat)
    ensures i <= |cmds| && (i < |cmds| ==> cmds[i].name == name)
  {
    if cmds == [] || cmds[0].name == name then 0 else 1 + FindCmd(cmds[1..], name)
  }

  function FindSub(subs: seq<Sub>, name: string): (j: nat)
    ensures j <= |subs| && (j < |subs| ==> subs[j].name == name)
  {
    if subs == [] || subs[0].name == name then 0 else 1 + FindSub(subs[1..], name)
  }

  /** The position of the first bar, or the length. */
  function FirstBar(s: string): (k: nat)
    ensures k <= |s| && (k < |s| ==> s[k] == '|') && forall i :: 0 <= i < k ==> s[i] != '|'
    ensures k == |s| <==> '|' !in s
  {
    if s == "" || s[0] == '|' then 0 else 1 + FirstBar(s[1..])
  }

  /** The position of the last bar of a string that has one. */
  function LastBar(s: string): (k: nat)
    requires '|' in s
    ensures k < |s| && s[k] == '|' && forall i :: k < i < |s| ==> s[i] != '|'
  {
    if s[|s| - 1] == '|' then |s| - 1 else LastBar(s[..|s| - 1])
  }

  datatype Found = Nothing | Top(i: nat) | Child(i: nat, j: nat)

  /** ACLLookupCommand: a command, or with one bar a subcommand; case is ignored. */
  function Lookup(t: Table, name: string): (f: Found)
    ensures f.Top? ==> f.i < |t.cmds|
    ensures f.Child? ==> f.i < |t.cmds| && f.j < |t.cmds[f.i].subs|
  {
    var k := FirstBar(name);
    var i := FindCmd(t.cmds, Lower(name[..k]));
    if i == |t.cmds| then Nothing
    else if k == |name| then Top(i)
    else if '|' in name[k + 1..] then Nothing
    else
      var j := FindSub(t.cmds[i].subs, Lower(name[k + 1..]));
      if j == |t.cmds[i].subs| then Nothing else Child(i, j)
  }

  // ----- Operations -----

  function SubIds(subs: seq<Sub>): (ids: set<nat>)
    ensures forall id :: id in ids <==> exists j :: 0 <= j < |subs| && subs[j].id == id
  {
    set j | 0 <= j < |subs| :: subs[j].id
  }

  function CatIds(subs: seq<Sub>, cat: string): (ids: set<nat>) {
    set j | 0 <= j < |subs| && cat in subs[j].cats :: subs[j].id
  }

  function CmdIds(c: Cmd): (ids: set<nat>) {
    {c.id} + SubIds(c.subs)
  }

  /** What a category changes in the first n commands: whole commands in it, and subcommands in it. */
  function CategoryIds(cmds: seq<Cmd>, cat: string): (ids: set<nat>) {
    if cmds == [] then {}
    else
      var c := cmds[|cmds| - 1];
      CategoryIds(cmds[..|cmds| - 1], cat) + (if cat in c.cats then CmdIds(c) else {}) + CatIds(c.subs, cat)
  }

  datatype Op = SetAll(allow: bool) | Rule(e: Effect, name: string) | Other | Invalid

  function Change(allow: bool, ids: set<nat>): (e: Effect) {
    Effect(allow, ids, ids, {})
  }

  function Sign(allow: bool): (c: char) {
    if allow then '+' else '-'
  }

  function ParseAdd(t: Table, name: string): (op: Op)
    ensures op.Rule? || op.Invalid?
  {
    if '|' !in name then
      match Lookup(t, name)
      case Top(i) => Rule(Change(true, CmdIds(t.cmds[i])), t.cmds[i].name)
      case _ => Invalid
    else
      var k := LastBar(name);
      var arg := name[k + 1..];
      match Lookup(t, name[..k])
      case Top(i) =>
        if arg == "" then Invalid
        else if t.cmds[i].subs != [] then
          match Lookup(t, name)
          case Child(i', j) => Rule(Change(true, {t.cmds[i'].subs[j].id}), Lower(name))
          case _ => Invalid
        else Rule(Effect(true, {}, {}, {(t.cmds[i].id, Lower(arg))}), Lower(name))
      case _ => Invalid
  }

  function ParseRemove(t: Table, name: string): (op: Op)
    ensures op.Rule? || op.Invalid?
  {
    match Lookup(t, name)
    case Nothing => Invalid
    case Top(i) => Rule(Change(false, CmdIds(t.cmds[i])), t.cmds[i].name)
    case Child(i, j) => Rule(Change(false, {t.cmds[i].subs[j].id}), t.cmds[i].name + "|" + t.cmds[i].subs[j].name)
  }

  function ParseCategory(t: Table, allow: bool, cat: string): (op: Op)
    ensures op.Rule? || op.Invalid?
  {
    if Lower(cat) in t.categories then Rule(Change(allow, CategoryIds(t.cmds, Lower(cat))), "@" + Lower(cat)) else Invalid
  }

  /** Operations on key and channel patterns, which leave the commands alone. */
  predicate OtherOp(op: string)
    requires op != ""
  {
    op[0] in ['~', '%', '&'] || Lower(op) in ["allkeys", "resetkeys", "allchannels", "resetchannels"]
  }

  /** The branches of ACLSetSelector that concern commands. */
  function Parse(t: Table, op: string): (r: Op) {
    if Lower(op) == "allcommands" || Lower(op) == "+@all" then SetAll(true)
    else if Lower(op) == "nocommands" || Lower(op) == "-@all" then SetAll(false)
    else if op == "" then Invalid
    else if op[0] != '+' && op[0] != '-' then (if OtherOp(op) then Other else Invalid)
    else if |op| > 1 && op[1] == '@' then ParseCategory(t, op[0] == '+', op[2..])
    else if op[0] == '+' then ParseAdd(t, op[1..])
    else ParseRemove(t, op[1..])
  }

  // ----- Case does not matter -----

  lemma LowerTwice(s: string)
    ensures Lower(Lower(s)) == Lower(s)
  {
  }

  lemma LowerParts(s: string, k: nat)
    requires k <= |s|
    ensures Lower(s)[..k] == Lower(s[..k]) && Lower(s)[k..] == Lower(s[k..])
  {
  }

  lemma LowerBars(s: string)
    ensures FirstBar(Lower(s)) == FirstBar(s) && ('|' in Lower(s) <==> '|' in s)
    ensures '|' in s ==> LastBar(Lower(s)) == LastBar(s)
  {
    var t := Lower(s);
    assert forall i :: 0 <= i < |s| ==> (t[i] == '|' <==> s[i] == '|');
    assert '|' in s ==> '|' in t by {
      if i :| 0 <= i < |s| && s[i] == '|' { assert t[i] == '|'; }
    }
  }

  lemma LookupLower(t: Table, name: string)
    ensures Lookup(t, Lower(name)) == Lookup(t, name)
  {
    hide FindCmd, FindSub, Lower;
    var k := FirstBar(name);
    LowerBars(name);
    LowerParts(name, k);
    LowerTwice(name[..k]);
    if k < |name| {
      LowerParts(name, k + 1);
      LowerBars(name[k + 1..]);
      LowerTwice(name[k + 1..]);
    }
  }

  /** A looked-up name is the full name, up to case. */
  lemma LookupName(t: Table, name: string)
    ensures match Lookup(t, name)
      case Nothing => true
      case Top(i) => Lower(name) == t.cmds[i].name && '|' !in name
      case Child(i, j) => Lower(name) == t.cmds[i].name + "|" + t.cmds[i].subs[j].name
  {
    hide Lower, FirstBar, FindCmd, FindSub;
    var k := FirstBar(name);
    LowerParts(name, k);
    if k == |name| {
      assert name[..k] == name;
    } else {
      LowerParts(name, k + 1);
      LowerBar(name, k);
      assert Lower(name) == Lower(name)[..k] + [Lower(name)[k]] + Lower(name)[k + 1..];
    }
  }

  lemma LowerBar(s: string, k: nat)
    requires k < |s| && s[k] == '|'
    ensures Lower(s)[k] == '|'
  {
  }

  lemma ParseAddLower(t: Table, name: string)
    ensures ParseAdd(t, Lower(name)) == ParseAdd(t, name)
    ensures ParseAdd(t, name).Rule? ==> ParseAdd(t, name).name == Lower(name) && ParseAdd(t, name).e.allow
  {
    hide Lookup, Lower, CmdIds, FirstBar, LastBar;
    LowerBars(name);
    LookupLower(t, name);
    LookupName(t, name);
    LowerTwice(name);
    if '|' in name {
      var k := LastBar(name);
      LowerParts(name, k);
      LowerParts(name, k + 1);
      LookupLower(t, name[..k]);
      LowerTwice(name[k + 1..]);
    }
  }

  lemma ParseRemoveLower(t: Table, name: string)
    ensures ParseRemove(t, Lower(name)) == ParseRemove(t, name)
    ensures ParseRemove(t, name).Rule? ==> ParseRemove(t, name).name == Lower(name) && !ParseRemove(t, name).e.allow
  {
    hide Lookup, Lower, CmdIds;
    LookupLower(t, name);
    LookupName(t, name);
  }

  lemma LowerHead(op: string)
    requires op != ""
    ensures (Lower(op)[0] == '+' <==> op[0] == '+') && (Lower(op)[0] == '-' <==> op[0] == '-')
    ensures |op| > 1 ==> (Lower(op)[1] == '@' <==> op[1] == '@')
    ensures op[0] == '+' || op[0] == '-' ==> Lower(op) == [op[0]] + Lower(op[1..])
    ensures op[0] == '@' ==> Lower(op) == "@" + Lower(op[1..])
    ensures Lower(op)[1..] == Lower(op[1..]) && (|op| > 1 ==> Lower(op)[2..] == Lower(op[2..]))
  {
  }

  lemma OtherLower(op: string)
    requires op != ""
    ensures OtherOp(Lower(op)) <==> OtherOp(op)
  {
    LowerTwice(op);
  }

  /** A rule is kept as the lower-case operation, and that operation is the same rule. */
  lemma ParseLower(t: Table, op: string)
    ensures Parse(t, Lower(op)) == Parse(t, op)
    ensures Parse(t, op).Rule? ==> op != "" && Lower(op) == [Sign(Parse(t, op).e.allow)] + Parse(t, op).name
  {
    hide ParseAdd, ParseRemove, Lower, CategoryIds, OtherOp;
    LowerTwice(op);
    if op != "" {
      LowerHead(op);
      OtherLower(op);
      ParseAddLower(t, op[1..]);
      ParseRemoveLower(t, op[1..]);
      if |op| > 1 {
        LowerTwice(op[2..]);
        LowerHead(op[1..]);
        assert op[1..][1..] == op[2..];
      }
    }
  }

  // ----- Matched rules are covered -----

  /** What a rule does depends only on its kept name, apart from the sign. */
  ghost predicate Means(t: Table, n: string, e: Effect) {
    if n != "" && n[0] == '@' then n[1..] in t.categories && e == Change(e.allow, CategoryIds(t.cmds, n[1..]))
    else match Lookup(t, n)
      case Top(i) => e == Change(e.allow, CmdIds(t.cmds[i]))
      case Child(i, j) => e == Change(e.allow, {t.cmds[i].subs[j].id})
      case Nothing =>
        && '|' in n && Lookup(t, n[..LastBar(n)]).Top?
        && var c := t.cmds[Lookup(t, n[..LastBar(n)]).i]; c.subs == [] && e == Effect(true, {}, {}, {(c.id, n[LastBar(n) + 1..])})
  }

  lemma RuleMeans(t: Table, x: string)
    requires Parse(t, x).Rule? && x != "" && Parse(t, x).name == x[1..]
    ensures Means(t, x[1..], Parse(t, x).e)
  {
    hide Lookup, Lower, CmdIds, CategoryIds, LastBar, FirstBar;
    var n := x[1..];
    ParseLower(t, x);
    LowerHead(x);
    if |x| > 1 && x[1] == '@' {
      LowerHead(n);
      assert n[1..] == x[2..];
    } else if x[0] == '+' && '|' in n {
      var k := LastBar(n);
      LowerParts(n, k + 1);
      SubsOnly(t, n);
    } else if x[0] == '+' {
      LookupName(t, n);
    }
  }

  /** Without subcommands a name with a bar is not looked up. */
  lemma SubsOnly(t: Table, n: string)
    requires '|' in n && Lookup(t, n[..LastBar(n)]).Top?
    ensures var i := Lookup(t, n[..LastBar(n)]).i; t.cmds[i].subs == [] ==> Lookup(t, n) == Nothing
    ensures !Lookup(t, n).Top?
  {
    var k := LastBar(n);
    LookupName(t, n[..k]);
    assert FirstBar(n) == k;
    assert n[..k][..FirstBar(n[..k])] == n[..k];
  }

  lemma TailHasBar(n: string)
    requires n != ""
    ensures '|' in n && n[0] != '|' ==> '|' in n[1..]
  {
    if k :| 1 <= k < |n| && n[k] == '|' {
      assert n[1..][k - 1] == '|';
    }
  }

  lemma BarAfter(n: string, k: nat, m: nat)
    requires k < m < |n| && n[m] == '|'
    ensures '|' in n[k + 1..] && (n[k] == '|' ==> '|' in n[..m])
  {
    assert n[k + 1..][m - k - 1] == '|';
    assert n[..m][k] == n[k];
  }

  /** A rule with a bar is not a category, and has one bar. */
  lemma OneBar(t: Table, n: string, e: Effect)
    requires Good(t) && Means(t, n, e) && '|' in n
    ensures n[0] != '@' && FirstBar(n) == LastBar(n)
  {
    hide CmdIds, CategoryIds;
    TailHasBar(n);
    var k, m := FirstBar(n), LastBar(n);
    LookupName(t, n[..m]);
    if k < m {
      BarAfter(n, k, m);
    }
  }

  /** A name extended by a bar belongs to a command that the shorter name denotes. */
  lemma ExtendedName(t: Table, nx: string, ny: string, ex: Effect, ey: Effect)
    requires Good(t) && Means(t, nx, ex) && Means(t, ny, ey)
    requires |nx| > |ny| && nx[..|ny|] == ny && nx[|ny|] == '|'
    ensures Covers(ey, ex)
  {
    hide CategoryIds, FindCmd, FindSub, Lower;
    OneBar(t, nx, ex);
    var k := FirstBar(nx);
    assert k == |ny|;
    assert FirstBar(ny) == |ny| && ny[..|ny|] == ny;
    assert ny != "" ==> ny[0] == nx[0];
    if Lookup(t, nx) == Nothing {
      assert nx[..LastBar(nx)] == ny;
    }
  }

  /** A rule that a new one replaces is covered by it. */
  lemma MatchCovers(t: Table, nx: string, ny: string, ex: Effect, ey: Effect)
    requires Good(t) && Means(t, nx, ex) && Means(t, ny, ey) && Matches(nx, ny)
    ensures Covers(ey, ex)
  {
    if nx != ny {
      ExtendedName(t, nx, ny, ex, ey);
    }
  }
}
