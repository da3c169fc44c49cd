/**
  What the operations on a selector mean for single commands: which of them a rule
  grants or takes away, and which operations are rules at all.
*/
module AclMeaning {
  import opened AclRules
  import opened AclText
  import opened AclSplit
  import opened AclTable
  import opened Acl

  /** Commands and the subcommands of each are kept in dictionaries. */
  ghost predicate OwnNames(t: Table) {
    && (forall i, k :: 0 <= i < |t.cmds| && 0 <= k < |t.cmds| && t.cmds[i].name == t.cmds[k].name ==> i == k)
    && (forall i :: 0 <= i < |t.cmds| ==> OwnSubs(t.cmds[i].subs))
  }

  ghost predicate OwnSubs(subs: seq<Sub>) {
    forall j, k :: 0 <= j < |subs| && 0 <= k < |subs| && subs[j].name == subs[k].name ==> j == k
  }

  /** A command, or one of its subcommands. */
  ghost predicate Part(c: Cmd, id: nat) {
    id == c.id || exists j :: 0 <= j < |c.subs| && c.subs[j].id == id
  }

  ghost predicate IsCmd(t: Table, n: string, i: nat) {
    i < |t.cmds| && t.cmds[i].name == n
  }

  ghost predicate IsSub(t: Table, n: string, i: nat, j: nat) {
    i < |t.cmds| && j < |t.cmds[i].subs| && n == t.cmds[i].name + "|" + t.cmds[i].subs[j].name
  }

  /** The commands that a name stands for: a command with its subcommands, or one subcommand. */
  ghost predicate Named(t: Table, n: string, id: nat) {
    || (exists i: nat :: IsCmd(t, n, i) && Part(t.cmds[i], id))
    || (exists i: nat, j: nat :: IsSub(t, n, i, j) && t.cmds[i].subs[j].id == id)
  }

  ghost predicate CmdInCategory(c: Cmd, cat: string, id: nat) {
    (cat in c.cats && Part(c, id)) || exists j :: 0 <= j < |c.subs| && cat in c.subs[j].cats && c.subs[j].id == id
  }

  ghost predicate InCategory(cmds: seq<Cmd>, cat: string, id: nat) {
    exists i :: 0 <= i < |cmds| && CmdInCategory(cmds[i], cat, id)
  }

  /** The commands that a rule is about, from its lower-case text without the sign. */
  ghost predicate Concerns(t: Table, n: string, id: nat) {
    if n != "" && n[0] == '@' then InCategory(t.cmds, n[1..], id) else Named(t, n, id)
  }

  /** A command without subcommands, and a first argument for it. */
  ghost predicate WithArg(t: Table, n: string, i: nat, arg: string) {
    i < |t.cmds| && t.cmds[i].subs == [] && n == t.cmds[i].name + "|" + arg
  }

  ghost predicate GivesArg(t: Table, n: string, f: (nat, string)) {
    exists i: nat :: WithArg(t, n, i, f.1) && t.cmds[i].id == f.0
  }

  // ----- Categories -----

  lemma PartIs(c: Cmd, id: nat)
    ensures id in CmdIds(c) <==> Part(c, id)
  {
  }

  lemma {:induction false} CategoryIs(cmds: seq<Cmd>, cat: string, id: nat)
    ensures id in CategoryIds(cmds, cat) <==> InCategory(cmds, cat, id)
  {
    hide CmdInCategory;
    if cmds != [] {
      var front, c := cmds[..|cmds| - 1], cmds[|cmds| - 1];
      CategoryIs(front, cat, id);
      CmdCategory(c, cat, id);
      if i :| 0 <= i < |front| && CmdInCategory(front[i], cat, id) {
        assert cmds[i] == front[i];
      }
      if i :| 0 <= i < |cmds| && CmdInCategory(cmds[i], cat, id) {
        assert i < |front| ==> cmds[i] == front[i];
      }
    }
  }

  lemma CmdCategory(c: Cmd, cat: string, id: nat)
    ensures CmdInCategory(c, cat, id) <==> (cat in c.cats && id in CmdIds(c)) || id in CatIds(c.subs, cat)
  {
    PartIs(c, id);
  }

  // ----- Names -----

  lemma BarAt(a: string, b: string)
    requires '|' !in a
    ensures FirstBar(a + "|" + b) == |a| && '|' in a + "|" + b
  {
    var s := a + "|" + b;
    assert s[|a|] == '|';
    assert forall i :: 0 <= i < |a| ==> s[i] == a[i] && a[i] in a;
  }

  /** A name with a bar is cut at its first one, whatever stands behind it. */
  lemma CutAtBar(a: string, b: string, c: string, d: string)
    requires '|' !in a && '|' !in c && a + "|" + b == c + "|" + d
    ensures a == c && b == d
  {
    var s := a + "|" + b;
    BarAt(a, b);
    BarAt(c, d);
    assert a == s[..|a|] && c == s[..|c|];
    assert b == s[|a| + 1..] && d == s[|c| + 1..];
  }

  lemma NoBar(t: Table, i: nat)
    requires Good(t) && i < |t.cmds|
    ensures '|' !in t.cmds[i].name && t.cmds[i].name != "" && t.cmds[i].name[0] != '@' && Lower(t.cmds[i].name) == t.cmds[i].name
    ensures forall j :: 0 <= j < |t.cmds[i].subs| ==>
        Lower(t.cmds[i].subs[j].name) == t.cmds[i].subs[j].name && '|' !in t.cmds[i].subs[j].name
  {
    assert GoodCmd(t.cmds[i]);
  }

  lemma NamedCmd(t: Table, i: nat, id: nat)
    requires Good(t) && OwnNames(t) && i < |t.cmds|
    ensures Named(t, t.cmds[i].name, id) <==> Part(t.cmds[i], id)
  {
    hide Good, Part;
    var n := t.cmds[i].name;
    NoBar(t, i);
    forall k: nat, j: nat ensures !IsSub(t, n, k, j) {
      if k < |t.cmds| && j < |t.cmds[k].subs| {
        NoBar(t, k);
        BarAt(t.cmds[k].name, t.cmds[k].subs[j].name);
      }
    }
    assert IsCmd(t, n, i);
  }

  lemma NamedSub(t: Table, i: nat, j: nat, id: nat)
    requires Good(t) && OwnNames(t) && i < |t.cmds| && j < |t.cmds[i].subs|
    ensures Named(t, t.cmds[i].name + "|" + t.cmds[i].subs[j].name, id) <==> id == t.cmds[i].subs[j].id
  {
    hide Good, Part;
    var n := t.cmds[i].name + "|" + t.cmds[i].subs[j].name;
    NoBar(t, i);
    BarAt(t.cmds[i].name, t.cmds[i].subs[j].name);
    forall k: nat ensures !IsCmd(t, n, k) {
      if k < |t.cmds| {
        NoBar(t, k);
      }
    }
    forall k: nat, l: nat | IsSub(t, n, k, l) ensures k == i && l == j {
      NoBar(t, k);
      CutAtBar(t.cmds[i].name, t.cmds[i].subs[j].name, t.cmds[k].name, t.cmds[k].subs[l].name);
      assert OwnSubs(t.cmds[i].subs);
    }
    assert IsSub(t, n, i, j);
  }

  /** A command with a first argument is no name. */
  lemma ArgIsNoName(t: Table, n: string, i: nat, arg: string, id: nat)
    requires Good(t) && OwnNames(t) && WithArg(t, n, i, arg)
    ensures !Named(t, n, id)
    ensures forall k: nat, other :: WithArg(t, n, k, other) ==> k == i && other == arg
  {
    hide Good, Part;
    NoBar(t, i);
    BarAt(t.cmds[i].name, arg);
    forall k: nat ensures !IsCmd(t, n, k) {
      if k < |t.cmds| {
        NoBar(t, k);
      }
    }
    forall k: nat, l: nat ensures !IsSub(t, n, k, l) {
      if IsSub(t, n, k, l) {
        NoBar(t, k);
        CutAtBar(t.cmds[i].name, arg, t.cmds[k].name, t.cmds[k].subs[l].name);
      }
    }
    forall k: nat, other | WithArg(t, n, k, other) ensures k == i && other == arg {
      NoBar(t, k);
      CutAtBar(t.cmds[i].name, arg, t.cmds[k].name, other);
    }
  }

  lemma NoArgs(t: Table, n: string, f: (nat, string))
    requires Good(t) && OwnNames(t) && Lower(n) == n && (Lookup(t, n) != Nothing || (n != "" && n[0] == '@'))
    ensures !GivesArg(t, n, f)
  {
    hide Good, Lookup, Lower;
    LookupName(t, n);
    if i: nat :| WithArg(t, n, i, f.1) {
      NoBar(t, i);
      BarAt(t.cmds[i].name, f.1);
      assert n[0] == t.cmds[i].name[0];
      match Lookup(t, n)
      case Child(k, l) =>
        NamedSub(t, k, l, t.cmds[k].subs[l].id);
        ArgIsNoName(t, n, i, f.1, t.cmds[k].subs[l].id);
        assert false;
      case _ =>
    }
  }

  // ----- What a rule does -----

  ghost predicate EffectIs(t: Table, n: string, e: Effect) {
    && (forall id: nat :: id in e.bits <==> Concerns(t, n, id))
    && (forall id: nat :: id in e.resets <==> Concerns(t, n, id))
    && (forall f: (nat, string) :: f in e.adds <==> GivesArg(t, n, f))
  }

  lemma MeansEffect(t: Table, n: string, e: Effect)
    requires Good(t) && OwnNames(t) && Means(t, n, e) && Lower(n) == n
    ensures EffectIs(t, n, e)
  {
    hide Good, OwnNames, Lookup, Lower, CmdIds, CategoryIds, LastBar, Named, InCategory, GivesArg;
    LookupName(t, n);
    if n != "" && n[0] == '@' {
      forall id: nat ensures id in e.bits <==> Concerns(t, n, id) { CategoryIs(t.cmds, n[1..], id); }
      forall f: (nat, string) ensures !GivesArg(t, n, f) { NoArgs(t, n, f); }
    } else {
      match Lookup(t, n)
      case Top(i) =>
        forall id: nat ensures id in e.bits <==> Concerns(t, n, id) { NamedCmd(t, i, id); PartIs(t.cmds[i], id); }
        forall f: (nat, string) ensures !GivesArg(t, n, f) { NoArgs(t, n, f); }
      case Child(i, j) =>
        forall id: nat ensures id in e.bits <==> Concerns(t, n, id) { NamedSub(t, i, j, id); }
        forall f: (nat, string) ensures !GivesArg(t, n, f) { NoArgs(t, n, f); }
      case Nothing => ArgEffect(t, n, e);
    }
  }

  lemma ArgEffect(t: Table, n: string, e: Effect)
    requires Good(t) && OwnNames(t) && Lower(n) == n && '|' in n && (n != "" ==> n[0] != '@')
    requires Lookup(t, n[..LastBar(n)]).Top?
    requires var c := t.cmds[Lookup(t, n[..LastBar(n)]).i];
      c.subs == [] && e == Effect(true, {}, {}, {(c.id, n[LastBar(n) + 1..])})
    ensures EffectIs(t, n, e)
  {
    hide Good, OwnNames, Lookup, Lower, Named;
    var k := LastBar(n);
    var i, arg := Lookup(t, n[..k]).i, n[k + 1..];
    LookupName(t, n[..k]);
    LowerParts(n, k);
    assert n == n[..k] + "|" + arg;
    assert WithArg(t, n, i, arg);
    forall id: nat ensures !Named(t, n, id) { ArgIsNoName(t, n, i, arg, id); }
    ArgIsNoName(t, n, i, arg, 0);
  }

  /**
    A rule with a plus grants exactly the commands that it is about, one with a minus takes them away, and all
    others stay as they are; their first arguments go, and a command with a first argument adds that.
  */
  lemma RuleMeaning(t: Table, p: Perm, op: string)
    requires Good(t) && OwnNames(t) && Parse(t, op).Rule?
    ensures op != "" && (op[0] == '+' || op[0] == '-') && Lower(op) != ""
    ensures var p', n := Apply(p, Parse(t, op).e), Lower(op)[1..];
      && (forall id: nat :: id in p'.bits <==> if Concerns(t, n, id) then op[0] == '+' else id in p.bits)
      && (forall f: (nat, string) :: f in p'.first <==> (f in p.first && !Concerns(t, n, f.0)) || GivesArg(t, n, f))
  {
    hide Good, OwnNames, Parse, Lower, Means, Concerns, GivesArg;
    ParseLower(t, op);
    LowerHead(op);
    LowerTwice(op);
    LowerParts(Lower(op), 1);
    RuleMeans(t, Lower(op));
    MeansEffect(t, Lower(op)[1..], Parse(t, op).e);
  }

  // ----- Which operations are rules -----

  lemma {:induction false} FindsCmd(cmds: seq<Cmd>, name: string, i: nat)
    requires i < |cmds| && cmds[i].name == name
    ensures FindCmd(cmds, name) < |cmds|
  {
    if cmds[0].name != name {
      FindsCmd(cmds[1..], name, i - 1);
    }
  }

  lemma {:induction false} FindsSub(subs: seq<Sub>, name: string, j: nat)
    requires j < |subs| && subs[j].name == name
    ensures FindSub(subs, name) < |subs|
  {
    if subs[0].name != name {
      FindsSub(subs[1..], name, j - 1);
    }
  }

  lemma LookupCmd(t: Table, i: nat)
    requires Good(t) && OwnNames(t) && i < |t.cmds|
    ensures Lookup(t, t.cmds[i].name) == Top(i)
  {
    hide Good;
    var n := t.cmds[i].name;
    NoBar(t, i);
    assert n[..|n|] == n;
    FindsCmd(t.cmds, n, i);
  }

  lemma LookupSub(t: Table, i: nat, j: nat)
    requires Good(t) && OwnNames(t) && i < |t.cmds| && j < |t.cmds[i].subs|
    ensures Lookup(t, t.cmds[i].name + "|" + t.cmds[i].subs[j].name) == Child(i, j)
  {
    hide Good;
    var a, b := t.cmds[i].name, t.cmds[i].subs[j].name;
    var n := a + "|" + b;
    NoBar(t, i);
    BarAt(a, b);
    assert n[..|a|] == a && n[|a| + 1..] == b;
    FindsCmd(t.cmds, a, i);
    FindsSub(t.cmds[i].subs, b, j);
    assert OwnSubs(t.cmds[i].subs);
  }

  ghost predicate NewArg(t: Table, n: string) {
    exists i: nat, arg :: WithArg(t, n, i, arg) && arg != "" && '|' !in arg
  }

  ghost predicate IsName(t: Table, n: string) {
    (exists i: nat :: IsCmd(t, n, i)) || exists i: nat, j: nat :: IsSub(t, n, i, j)
  }

  /** A sign and a category, a command, or a subcommand; with a plus also a command and a first argument. */
  ghost predicate IsRule(t: Table, sign: char, n: string) {
    if n != "" && n[0] == '@' then n[1..] in t.categories else IsName(t, n) || (sign == '+' && NewArg(t, n))
  }

  lemma NameLookup(t: Table, n: string)
    requires Good(t) && OwnNames(t) && Lower(n) == n
    ensures IsName(t, n) <==> Lookup(t, n) != Nothing
  {
    hide Good, OwnNames, Lookup, Lower;
    LookupName(t, n);
    forall i: nat | IsCmd(t, n, i) ensures Lookup(t, n) != Nothing {
      LookupCmd(t, i);
    }
    forall i: nat, j: nat | IsSub(t, n, i, j) ensures Lookup(t, n) != Nothing {
      LookupSub(t, i, j);
    }
    match Lookup(t, n)
    case Nothing =>
    case Top(i) => assert IsCmd(t, n, i);
    case Child(i, j) => assert IsSub(t, n, i, j);
  }

  /** The last bar of a name behind which there is none. */
  lemma LastBarAt(a: string, b: string)
    requires '|' !in b
    ensures var n := a + "|" + b; '|' in n && LastBar(n) == |a| && n[..|a|] == a && n[|a| + 1..] == b
  {
    var n := a + "|" + b;
    assert n[|a|] == '|';
    assert forall i :: |a| < i < |n| ==> n[i] == b[i - |a| - 1] && n[i] in b;
  }

  lemma AddIff(t: Table, n: string)
    requires Good(t) && OwnNames(t) && Lower(n) == n
    ensures ParseAdd(t, n).Rule? <==> IsName(t, n) || NewArg(t, n)
  {
    hide Good, OwnNames, Lookup, Lower, CmdIds, LastBar, IsName;
    NameLookup(t, n);
    LookupName(t, n);
    if '|' !in n {
      assert !NewArg(t, n) by { ArgHasBar(t, n); }
    } else {
      var k := LastBar(n);
      var a, b := n[..k], n[k + 1..];
      assert n == a + "|" + b;
      LookupName(t, a);
      LowerParts(n, k);
      if IsName(t, n) {
        SubContainer(t, n);
      } else {
        assert ParseAdd(t, n).Rule? ==> WithArg(t, n, Lookup(t, a).i, b);
        forall i: nat, arg | WithArg(t, n, i, arg) && arg != "" && '|' !in arg ensures ParseAdd(t, n).Rule? {
          LastBarAt(t.cmds[i].name, arg);
          LookupCmd(t, i);
        }
      }
    }
  }

  lemma ArgHasBar(t: Table, n: string)
    requires '|' !in n
    ensures !NewArg(t, n)
  {
    forall i: nat, arg ensures !WithArg(t, n, i, arg) {
      if i < |t.cmds| {
        var s := t.cmds[i].name + "|" + arg;
        assert s[|t.cmds[i].name|] == '|' && '|' in s;
      }
    }
  }

  /** What stands before the bar of a subcommand's name is a command with subcommands, and something stands behind it. */
  lemma SubContainer(t: Table, n: string)
    requires Good(t) && OwnNames(t) && Lower(n) == n && '|' in n && IsName(t, n)
    ensures var k := LastBar(n); var found := Lookup(t, n[..k]);
      found.Top? && t.cmds[found.i].subs != [] && n[k + 1..] != "" && Lookup(t, n).Child?
  {
    hide Good, OwnNames, Lookup, Lower, LastBar;
    forall i: nat ensures !IsCmd(t, n, i) {
      if i < |t.cmds| {
        NoBar(t, i);
      }
    }
    var i: nat, j: nat :| IsSub(t, n, i, j);
    NoBar(t, i);
    LastBarAt(t.cmds[i].name, t.cmds[i].subs[j].name);
    LookupCmd(t, i);
    LookupSub(t, i, j);
    assert t.cmds[i].subs[j].name != "" by { SubNames(t, i, j); }
  }

  lemma SubNames(t: Table, i: nat, j: nat)
    requires Good(t) && i < |t.cmds| && j < |t.cmds[i].subs|
    ensures t.cmds[i].subs[j].name != ""
  {
    assert GoodCmd(t.cmds[i]);
  }

  lemma RemoveIff(t: Table, n: string)
    requires Good(t) && OwnNames(t) && Lower(n) == n
    ensures ParseRemove(t, n).Rule? <==> IsName(t, n)
  {
    hide Good, OwnNames, Lookup, Lower, IsName, CmdIds;
    NameLookup(t, n);
  }

  /** The operations that are not about all commands, in lower case: the rules are those with a known name. */
  lemma RuleIff(t: Table, op: string)
    requires Good(t) && OwnNames(t) && op != "" && (op[0] == '+' || op[0] == '-')
    requires Lower(op) != "+@all" && Lower(op) != "-@all"
    ensures Lower(op) != "" && (Parse(t, op).Rule? <==> IsRule(t, op[0], Lower(op)[1..]))
    ensures Parse(t, op).Rule? || Parse(t, op).Invalid?
  {
    hide Good, OwnNames, Lower, ParseAdd, ParseRemove, CategoryIds, IsName, NewArg;
    var x := Lower(op);
    ParseLower(t, op);
    LowerHead(op);
    LowerTwice(op);
    LowerHead(x);
    LowerParts(x, 1);
    AddIff(t, x[1..]);
    RemoveIff(t, x[1..]);
    if |x| > 1 && x[1] == '@' {
      LowerHead(x[1..]);
      assert x[1..][1..] == x[2..];
    }
  }

  // ----- On a selector -----

  /** ACLSetSelector as it is documented: which commands are allowed afterwards. */
  method SetAsDocumented(sel: Selector, op: string) returns (ok: bool)
    requires sel.Valid() && OwnNames(sel.t)
    modifies sel
    ensures sel.Sized()
    ensures Lower(op) in ["+@all", "allcommands"] ==> ok && forall i :: 0 <= i < BITS ==> sel.allowed[i]
    ensures Lower(op) in ["-@all", "nocommands"] ==> ok && forall i :: 0 <= i < BITS ==> !sel.allowed[i]
    ensures op != "" && (op[0] == '+' || op[0] == '-') && Lower(op) !in ["+@all", "-@all"] ==>
        var n := Lower(op[1..]);
        if !IsRule(sel.t, op[0], n) then !ok && unchanged(sel)
        else ok && forall i: nat :: i < BITS ==>
          sel.allowed[i] == if Concerns(sel.t, n, i) then op[0] == '+' else old(sel.allowed[i])
  {
    hide Good, OwnNames, Parse, Lower, IsRule, Concerns, Apply, Start, Reproduces, FirstOf, NoSubFirst;
    ghost var p := PermOf(sel.allowed, sel.firstargs);
    if op != "" && (op[0] == '+' || op[0] == '-') && Lower(op) != "+@all" && Lower(op) != "-@all" {
      RuleIff(sel.t, op);
      LowerHead(op);
      if Parse(sel.t, op).Rule? {
        RuleMeaning(sel.t, p, op);
      }
    }
    ok := sel.Set(op);
  }
}
