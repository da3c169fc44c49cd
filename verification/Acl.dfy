/**
  A selector's command permissions: a bitmap, lists of allowed first arguments, and the
  text of the rules that produced them. After any history of operations the text
  reproduces the permissions.
*/
module Acl {
  import opened Common
  import opened AclRules
  import opened AclText
  import opened AclSplit
  import opened AclTable

  const BITS := 1024

  function BitsOf(allowed: seq<bool>): (bits: set<nat>)
    ensures forall i: nat :: i in bits <==> i < |allowed| && allowed[i]
  {
    set i: nat | i < |allowed| && allowed[i]
  }

  predicate HasArg(args: seq<string>, arg: string) {
    exists k :: 0 <= k < |args| && Lower(args[k]) == arg
  }

  function ArgsOf(id: nat, args: seq<string>): (first: set<(nat, string)>)
    ensures forall f :: f in first <==> f.0 == id && HasArg(args, f.1)
  {
    set k | 0 <= k < |args| :: (id, Lower(args[k]))
  }

  /** First arguments are compared without regard to case. */
  function FirstOf(lists: seq<seq<string>>): (first: set<(nat, string)>)
    ensures forall f :: f in first <==> f.0 < |lists| && HasArg(lists[f.0], f.1)
  {
    if lists == [] then {} else FirstOf(lists[..|lists| - 1]) + ArgsOf(|lists| - 1, lists[|lists| - 1])
  }

  function PermOf(allowed: seq<bool>, lists: seq<seq<string>>): (p: Perm) {
    Perm(BitsOf(allowed), FirstOf(lists))
  }

  function With(bits: set<nat>, allow: bool, ids: set<nat>): (bits': set<nat>) {
    if allow then bits + ids else bits - ids
  }

  /** What the rules are replayed on: everything or nothing, as the reserved bit tells. */
  function Start(all: bool): (p: Perm) {
    Perm(BitsOf(seq(BITS, i => all)), {})
  }

  ghost predicate IsSubId(t: Table, id: nat) {
    exists i, j :: 0 <= i < |t.cmds| && 0 <= j < |t.cmds[i].subs| && t.cmds[i].subs[j].id == id
  }

  ghost predicate NoSubFirst(t: Table, first: set<(nat, string)>) {
    forall f :: f in first ==> !IsSubId(t, f.0)
  }

  // ----- The list of rules behind the text -----

  ghost predicate Listed(t: Table, text: string, e: Effect) {
    Signed(text) && Plain(text) && Parse(t, text) == Rule(e, text[1..])
  }

  ghost predicate AllListed(t: Table, list: seq<string>, effects: seq<Effect>) {
    |list| == |effects| && forall i :: 0 <= i < |list| ==> Listed(t, list[i], effects[i])
  }

  /** No rule is matched by a later one. */
  ghost predicate Settled(list: seq<string>) {
    forall i, j :: 0 <= i < j < |list| && list[i] != "" && list[j] != "" ==> !Matches(list[i][1..], list[j][1..])
  }

  ghost predicate Reproduces(t: Table, p: Perm, list: seq<string>, effects: seq<Effect>, all: bool) {
    AllListed(t, list, effects) && Settled(list) && p == Replay(Start(all), effects)
  }

  lemma ListedWords(t: Table, list: seq<string>, effects: seq<Effect>)
    requires AllListed(t, list, effects)
    ensures Words(list) && |effects| == |list|
  {
    forall i | 0 <= i < |list| ensures Word(list[i]) {
      assert Listed(t, list[i], effects[i]);
      assert forall k :: 0 <= k < |list[i]| ==> !Special(list[i][k]);
    }
  }

  /** Replacing the rules that a new one matches keeps what the list means. */
  lemma NewRule(t: Table, p: Perm, list: seq<string>, effects: seq<Effect>, all: bool, text: string, e: Effect)
    requires Good(t) && Reproduces(t, p, list, effects, all) && Listed(t, text, e) && Words(list)
    ensures var keep := Unmatched(list, text[1..]);
      Reproduces(t, Apply(p, e), Kept(list, keep) + [text], Kept(effects, keep) + [e], all)
  {
    hide Means, Parse, Plain, Covers, Replay, Matches;
    var keep := Unmatched(list, text[1..]);
    RuleMeans(t, text);
    forall i | 0 <= i < |list| && !keep[i] ensures Covers(e, effects[i]) {
      assert Listed(t, list[i], effects[i]);
      RuleMeans(t, list[i]);
      MatchCovers(t, list[i][1..], text[1..], effects[i], e);
    }
    CoveredCanGo(Start(all), effects, e, keep);
    KeptListed(t, list, effects, keep);
    KeptSettled(list, keep, text);
    ReplayNext(Start(all), Kept(effects, keep), e);
  }

  lemma {:induction false} KeptFrom<T>(s: seq<T>, keep: seq<bool>, i: nat) returns (k: nat)
    requires |keep| == |s| && i < |Kept(s, keep)|
    ensures k < |s| && keep[k] && s[k] == Kept(s, keep)[i]
  {
    var n := |s| - 1;
    if i < |Kept(s[..n], keep[..n])| {
      k := KeptFrom(s[..n], keep[..n], i);
    } else {
      k := n;
    }
  }

  lemma SettledNext(list: seq<string>, text: string)
    requires Settled(list) && text != "" && forall i :: 0 <= i < |list| && list[i] != "" ==> !Matches(list[i][1..], text[1..])
    ensures Settled(list + [text])
  {
    hide Matches;
    var more := list + [text];
    forall i, j | 0 <= i < j < |more| && more[i] != "" && more[j] != "" ensures !Matches(more[i][1..], more[j][1..]) {
      assert more[i] == list[i] && (j < |list| ==> more[j] == list[j]);
    }
  }

  /** Rules that are kept stay settled, also before a new one that matches none of them. */
  lemma {:induction false} KeptSettled(list: seq<string>, keep: seq<bool>, text: string)
    requires Settled(list) && Words(list) && |keep| == |list| && text != ""
    requires forall i :: 0 <= i < |list| && keep[i] && list[i] != "" ==> !Matches(list[i][1..], text[1..])
    ensures Settled(Kept(list, keep)) && Settled(Kept(list, keep) + [text])
  {
    hide Matches;
    var kept := Kept(list, keep);
    if list != [] {
      var n := |list| - 1;
      assert Word(list[n]);
      assert Words(list[..n]) by { WordsFront(list); }
      if keep[n] {
        KeptSettled(list[..n], keep[..n], list[n]);
      } else {
        KeptSettled(list[..n], keep[..n], text);
        assert Kept(list[..n], keep[..n]) + [] == Kept(list[..n], keep[..n]);
      }
    }
    forall i | 0 <= i < |kept| && kept[i] != "" ensures !Matches(kept[i][1..], text[1..]) {
      var k := KeptFrom(list, keep, i);
    }
    SettledNext(kept, text);
  }

  lemma WordsFront(list: seq<string>)
    requires Words(list) && list != []
    ensures Words(list[..|list| - 1])
  {
    var front := list[..|list| - 1];
    forall i | 0 <= i < |front| ensures Word(front[i]) {
      assert Word(list[i]);
    }
  }

  /** A rule that none of the earlier ones is matched by leaves them all. */
  lemma {:induction false} KeptAll<T>(s: seq<T>, keep: seq<bool>)
    requires |keep| == |s| && forall i :: 0 <= i < |s| ==> keep[i]
    ensures Kept(s, keep) == s
  {
    if s != [] {
      var n := |s| - 1;
      KeptAll(s[..n], keep[..n]);
      assert s == s[..n] + [s[n]];
    }
  }

  lemma ReplayNext(p: Perm, es: seq<Effect>, e: Effect)
    ensures Replay(p, es + [e]) == Apply(Replay(p, es), e)
  {
    assert (es + [e])[..|es|] == es;
  }

  lemma {:induction false} KeptListed(t: Table, list: seq<string>, effects: seq<Effect>, keep: seq<bool>)
    requires AllListed(t, list, effects) && |keep| == |list|
    ensures AllListed(t, Kept(list, keep), Kept(effects, keep))
  {
    hide Listed;
    if list != [] {
      var k := |list| - 1;
      KeptListed(t, list[..k], effects[..k], keep[..k]);
      assert Listed(t, list[k], effects[k]);
    }
  }

  // ----- Changing the bitmap and the lists -----

  lemma SetBitOf(allowed: seq<bool>, id: nat, value: bool)
    requires id < |allowed|
    ensures BitsOf(allowed[id := value]) == With(BitsOf(allowed), value, {id})
  {
  }

  lemma ResetOf(lists: seq<seq<string>>, id: nat)
    requires id < |lists|
    ensures FirstOf(lists[id := []]) == Without(FirstOf(lists), {id})
  {
    hide FirstOf;
    assert forall f :: f in FirstOf(lists[id := []]) <==> f in Without(FirstOf(lists), {id});
  }

  lemma AddOf(lists: seq<seq<string>>, id: nat, arg: string)
    requires id < |lists|
    ensures FirstOf(lists[id := lists[id] + [arg]]) == FirstOf(lists) + {(id, Lower(arg))}
    ensures HasArg(lists[id], Lower(arg)) ==> FirstOf(lists) == FirstOf(lists) + {(id, Lower(arg))}
  {
    hide FirstOf;
    var lists' := lists[id := lists[id] + [arg]];
    forall f ensures f in FirstOf(lists') <==> f in FirstOf(lists) + {(id, Lower(arg))} {
      if f.0 == id {
        AddArg(lists[id], arg, f.1);
      }
    }
    assert FirstOf(lists') == FirstOf(lists) + {(id, Lower(arg))};
    if HasArg(lists[id], Lower(arg)) {
      assert (id, Lower(arg)) in FirstOf(lists);
    }
  }

  lemma AddArg(args: seq<string>, arg: string, a: string)
    ensures HasArg(args + [arg], a) <==> HasArg(args, a) || a == Lower(arg)
  {
    var more := args + [arg];
    if HasArg(args, a) {
      var k :| 0 <= k < |args| && Lower(args[k]) == a;
      assert Lower(more[k]) == a;
    }
    if a == Lower(arg) {
      assert Lower(more[|args|]) == a;
    }
  }

  class Selector {
    const t: Table
    var allowed: seq<bool>
    var firstargs: seq<seq<string>>
    var rules: string
    var allCommands: bool
    ghost var list: seq<string>
    ghost var effects: seq<Effect>

    /** ACLCreateSelector: nothing is allowed. */
    constructor (t: Table)
      requires Good(t)
      ensures this.t == t && Valid() && PermOf(allowed, firstargs) == Start(false) && rules == "" && !allowed[RESERVED]
    {
      this.t := t;
      allowed, firstargs := seq(BITS, i => false), seq(BITS, i => []);
      rules, allCommands := "", false;
      list, effects := [], [];
      NothingFirst(seq(BITS, i => []));
    }

    ghost predicate Sized()
      reads this
    {
      |allowed| == |firstargs| == BITS && Good(t) && NoSubFirst(t, FirstOf(firstargs))
    }

    /** The flag is only set when every bit is. */
    ghost predicate FlagOk()
      reads this
    {
      allCommands ==> forall i :: 0 <= i < |allowed| ==> allowed[i]
    }

    ghost predicate Valid()
      reads this
    {
      && Sized() && FlagOk() && rules == Join(list)
      && Reproduces(t, PermOf(allowed, firstargs), list, effects, allowed[RESERVED])
    }

    /** ACLSetSelectorCommandBit. */
    method SetBit(id: nat, value: bool)
      requires Sized() && id < RESERVED
      modifies this`allowed, this`allCommands
      ensures Sized() && BitsOf(allowed) == With(old(BitsOf(allowed)), value, {id}) && allowed[RESERVED] == old(allowed[RESERVED])
      ensures old(FlagOk()) ==> FlagOk()
    {
      SetBitOf(allowed, id, value);
      allowed := allowed[id := value];
      if !value {
        allCommands := false;
      }
    }

    /** ACLResetFirstArgsForCommand. */
    method ResetFirst(id: nat)
      requires Sized() && id < RESERVED
      modifies this`firstargs
      ensures Sized() && FirstOf(firstargs) == Without(old(FirstOf(firstargs)), {id})
    {
      ResetOf(firstargs, id);
      firstargs := firstargs[id := []];
    }

    /** ACLChangeSelectorPerm for a command, with its subcommands. */
    method ChangeCmd(c: Cmd, allow: bool)
      requires Sized() && c in t.cmds
      modifies this`allowed, this`firstargs, this`allCommands
      ensures Sized() && PermOf(allowed, firstargs) == Apply(old(PermOf(allowed, firstargs)), Change(allow, CmdIds(c)))
      ensures allowed[RESERVED] == old(allowed[RESERVED]) && (old(FlagOk()) ==> FlagOk())
    {
      hide FirstOf, BitsOf, SubIds, With, Without, Good, NoSubFirst, IsSubId;
      GoodIds(t, c);
      ghost var bits, first := BitsOf(allowed), FirstOf(firstargs);
      NoSubIds();
      SetBit(c.id, allow);
      ResetFirst(c.id);
      assert {c.id} + {} == {c.id};
      for j := 0 to |c.subs|
        invariant Sized() && FirstOf(firstargs) == Without(first, {c.id})
        invariant BitsOf(allowed) == With(bits, allow, {c.id} + SubIds(c.subs[..j]))
        invariant allowed[RESERVED] == old(allowed[RESERVED]) && (old(FlagOk()) ==> FlagOk())
      {
        SubIdsNext(c.subs, j);
        WithTwice(bits, allow, {c.id} + SubIds(c.subs[..j]), {c.subs[j].id});
        assert {c.id} + SubIds(c.subs[..j]) + {c.subs[j].id} == {c.id} + SubIds(c.subs[..j + 1]);
        SetBit(c.subs[j].id, allow);
      }
      assert c.subs[..|c.subs|] == c.subs;
      CmdApplied(t, c, allow, bits, first);
    }

    /** ACLChangeSelectorPerm for a subcommand. */
    method ChangeSub(ghost c: Cmd, sub: Sub, allow: bool)
      requires Sized() && c in t.cmds && sub in c.subs
      modifies this`allowed, this`firstargs, this`allCommands
      ensures Sized() && PermOf(allowed, firstargs) == Apply(old(PermOf(allowed, firstargs)), Change(allow, {sub.id}))
      ensures allowed[RESERVED] == old(allowed[RESERVED]) && (old(FlagOk()) ==> FlagOk())
    {
      hide FirstOf, BitsOf;
      GoodIds(t, c);
      SetBit(sub.id, allow);
      ResetFirst(sub.id);
    }

    /** ACLSetSelectorCommandBitsForCategory, over the table and the subcommands of each command. */
    method ChangeCategory(cat: string, allow: bool)
      requires Sized()
      modifies this`allowed, this`firstargs, this`allCommands
      ensures Sized() && PermOf(allowed, firstargs) == Apply(old(PermOf(allowed, firstargs)),
          Change(allow, CategoryIds(t.cmds, cat)))
      ensures allowed[RESERVED] == old(allowed[RESERVED]) && (old(FlagOk()) ==> FlagOk())
    {
      hide FirstOf, BitsOf, Good, NoSubFirst, Apply, PermOf, CmdIds, CatIds;
      ghost var p := PermOf(allowed, firstargs);
      ChangeNothing(p, allow);
      for i := 0 to |t.cmds|
        invariant Sized() && PermOf(allowed, firstargs) == Apply(p, Change(allow, CategoryIds(t.cmds[..i], cat)))
        invariant allowed[RESERVED] == old(allowed[RESERVED]) && (old(FlagOk()) ==> FlagOk())
      {
        assert t.cmds[..i + 1][..i] == t.cmds[..i];
        ChangeOne(t.cmds[i], cat, allow, p, CategoryIds(t.cmds[..i], cat));
      }
      assert t.cmds[..|t.cmds|] == t.cmds;
    }

    method ChangeOne(c: Cmd, cat: string, allow: bool, ghost p: Perm, ghost ids: set<nat>)
      requires Sized() && c in t.cmds && PermOf(allowed, firstargs) == Apply(p, Change(allow, ids))
      modifies this`allowed, this`firstargs, this`allCommands
      ensures Sized() && PermOf(allowed, firstargs) == Apply(p,
          Change(allow, ids + (if cat in c.cats then CmdIds(c) else {}) + CatIds(c.subs, cat)))
      ensures allowed[RESERVED] == old(allowed[RESERVED]) && (old(FlagOk()) ==> FlagOk())
    {
      hide FirstOf, BitsOf, Good, NoSubFirst, Apply, PermOf, CmdIds, CatIds;
      ghost var ids' := ids + if cat in c.cats then CmdIds(c) else {};
      if cat in c.cats {
        ChangeTwice(p, allow, ids, CmdIds(c));
        ChangeCmd(c, allow);
      } else {
        assert ids' == ids;
      }
      NoCatIds(c.subs, cat);
      assert ids' + {} == ids';
      for j := 0 to |c.subs|
        invariant Sized() && PermOf(allowed, firstargs) == Apply(p, Change(allow, ids' + CatIds(c.subs[..j], cat)))
        invariant allowed[RESERVED] == old(allowed[RESERVED]) && (old(FlagOk()) ==> FlagOk())
      {
        CatIdsNext(c.subs, cat, j);
        if cat in c.subs[j].cats {
          ChangeTwice(p, allow, ids' + CatIds(c.subs[..j], cat), {c.subs[j].id});
          assert ids' + CatIds(c.subs[..j], cat) + {c.subs[j].id} == ids' + CatIds(c.subs[..j + 1], cat);
          ChangeSub(c, c.subs[j], allow);
        } else {
          assert CatIds(c.subs[..j + 1], cat) == CatIds(c.subs[..j], cat);
        }
      }
      assert c.subs[..|c.subs|] == c.subs;
    }

    /** ACLAddAllowedFirstArg. */
    method AddFirstArg(id: nat, arg: string)
      requires Sized() && id < RESERVED && !IsSubId(t, id)
      modifies this`firstargs
      ensures Sized() && FirstOf(firstargs) == old(FirstOf(firstargs)) + {(id, Lower(arg))}
    {
      hide FirstOf, Good, IsSubId;
      AddOf(firstargs, id, arg);
      var items := 0;
      while items < |firstargs[id]|
        invariant 0 <= items <= |firstargs[id]| && firstargs == old(firstargs)
      {
        if Lower(firstargs[id][items]) == Lower(arg) {
          return;
        }
        items := items + 1;
      }
      firstargs := firstargs[id := firstargs[id] + [arg]];
    }

    /** ACLUpdateCommandRules. */
    method UpdateRules(rule: string, allow: bool, ghost e: Effect)
      requires rules == Join(list) && Words(list) && |effects| == |list|
      modifies this`rules, this`list, this`effects
      ensures rules == Join(list) && list == Kept(old(list), Unmatched(old(list), Lower(rule))) + [[Sign(allow)] + Lower(rule)]
      ensures effects == Kept(old(effects), Unmatched(old(list), Lower(rule))) + [e]
    {
      var newRule := Lower(rule);
      ghost var keep := Unmatched(list, newRule);
      rules := RemoveRule(rules, newRule, list);
      KeptWords(list, keep);
      PrefixNext(Kept(list, keep), [Sign(allow)] + newRule);
      if Kept(list, keep) != [] {
        JoinNotEmpty(Kept(list, keep));
      }
      if |rules| > 0 {
        rules := rules + " ";
      }
      rules := rules + ([Sign(allow)] + newRule);
      list := Kept(list, keep) + [[Sign(allow)] + newRule];
      effects := Kept(effects, keep) + [e];
    }

    /** The text and the list behind it agree. */
    ghost predicate Kempt()
      reads this
    {
      Sized() && FlagOk() && rules == Join(list) && Words(list) && |effects| == |list|
    }

    /** A rule has been applied to earlier permissions and put at the end of an earlier list. */
    ghost predicate Ruled(p0: Perm, reserved: bool, list0: seq<string>, effects0: seq<Effect>, e: Effect, name: string)
      requires Words(list0) && |effects0| == |list0|
      reads this
    {
      && Sized() && FlagOk() && PermOf(allowed, firstargs) == Apply(p0, e) && allowed[RESERVED] == reserved
      && rules == Join(list)
      && list == Kept(list0, Unmatched(list0, name)) + [[Sign(e.allow)] + name]
      && effects == Kept(effects0, Unmatched(list0, name)) + [e]
    }

    /** The "+" branch: a command, a subcommand, or a command with a first argument. */
    method Add(name: string) returns (ok: bool)
      requires Kempt()
      modifies this
      ensures ok <==> ParseAdd(t, name).Rule?
      ensures !ok ==> unchanged(this)
      ensures ok ==> Ruled(old(PermOf(allowed, firstargs)), old(allowed[RESERVED]), old(list), old(effects),
          ParseAdd(t, name).e, Lower(name))
    {
      hide FirstOf, BitsOf, Good, NoSubFirst, Apply, CmdIds, Lookup, Lower, LastBar, Words, Join, IsSubId;
      LookupName(t, name);
      LowerTwice(name);
      if '|' !in name {
        var found := Lookup(t, name);
        if !found.Top? {
          return false;
        }
        var c := t.cmds[found.i];
        ChangeCmd(c, true);
        UpdateRules(c.name, true, Change(true, CmdIds(c)));
        return true;
      }
      var k := LastBar(name);
      var container := Lookup(t, name[..k]);
      if !container.Top? || name[k + 1..] == "" {
        return false;
      }
      var c := t.cmds[container.i];
      if c.subs != [] {
        var found := Lookup(t, name);
        if !found.Child? {
          return false;
        }
        var sub := t.cmds[found.i].subs[found.j];
        ChangeSub(t.cmds[found.i], sub, true);
        UpdateRules(name, true, Change(true, {sub.id}));
      } else {
        GoodIds(t, c);
        AddFirstArg(c.id, name[k + 1..]);
        FirstApplied(old(PermOf(allowed, firstargs)), c.id, Lower(name[k + 1..]));
        UpdateRules(name, true, Effect(true, {}, {}, {(c.id, Lower(name[k + 1..]))}));
      }
      return true;
    }

    /** The "-" branch: a command or a subcommand. */
    method Remove(name: string) returns (ok: bool)
      requires Kempt()
      modifies this
      ensures ok <==> ParseRemove(t, name).Rule?
      ensures !ok ==> unchanged(this)
      ensures ok ==> Ruled(old(PermOf(allowed, firstargs)), old(allowed[RESERVED]), old(list), old(effects),
          ParseRemove(t, name).e, Lower(name))
    {
      hide FirstOf, BitsOf, Good, NoSubFirst, Apply, CmdIds, Lookup, Lower, Words, Join;
      LookupName(t, name);
      LowerTwice(name);
      match Lookup(t, name)
      case Nothing =>
        return false;
      case Top(i) =>
        ChangeCmd(t.cmds[i], false);
        UpdateRules(t.cmds[i].name, false, Change(false, CmdIds(t.cmds[i])));
        return true;
      case Child(i, j) =>
        ChangeSub(t.cmds[i], t.cmds[i].subs[j], false);
        UpdateRules(t.cmds[i].name + "|" + t.cmds[i].subs[j].name, false, Change(false, {t.cmds[i].subs[j].id}));
        return true;
    }

    /** ACLSetSelectorCategory. */
    method SetCategory(cat: string, allow: bool) returns (ok: bool)
      requires Kempt()
      modifies this
      ensures ok <==> ParseCategory(t, allow, cat).Rule?
      ensures !ok ==> unchanged(this)
      ensures ok ==> Ruled(old(PermOf(allowed, firstargs)), old(allowed[RESERVED]), old(list), old(effects),
          ParseCategory(t, allow, cat).e, "@" + Lower(cat))
    {
      hide FirstOf, BitsOf, Good, NoSubFirst, Apply, Lower, Words, Join, CategoryIds;
      if Lower(cat) !in t.categories {
        return false;
      }
      LowerHead("@" + cat);
      assert ("@" + cat)[1..] == cat;
      UpdateRules("@" + cat, allow, Change(allow, CategoryIds(t.cmds, Lower(cat))));
      ChangeCategory(Lower(cat), allow);
      return true;
    }

    /** Every command is allowed, the reserved one too, or none is; no first arguments are kept. */
    ghost predicate Everywhere(allow: bool)
      reads this
    {
      |allowed| == BITS && (forall i :: 0 <= i < BITS ==> allowed[i] == allow) && FirstOf(firstargs) == {}
    }

    /** +@all and -@all. */
    method SetAll(allow: bool)
      requires Good(t)
      modifies this
      ensures Valid() && PermOf(allowed, firstargs) == Start(allow) && Everywhere(allow)
      ensures rules == "" && list == [] && allCommands == allow
    {
      allowed, firstargs := seq(BITS, i => allow), seq(BITS, i => []);
      allCommands, rules := allow, "";
      list, effects := [], [];
      NothingFirst(firstargs);
    }

    /** The part of ACLSetSelector that concerns commands; +@all and -@all put any selector in order. */
    method Set(op: string) returns (ok: bool)
      requires Good(t) && (Parse(t, op).SetAll? || Valid())
      modifies this
      ensures Sized() && (ok <==> !Parse(t, op).Invalid?)
      ensures Parse(t, op).Invalid? || Parse(t, op).Other? ==> unchanged(this)
      ensures Lower(op) == "+@all" || Lower(op) == "allcommands" ==> ok && Valid() && Everywhere(true) && rules == ""
      ensures Lower(op) == "-@all" || Lower(op) == "nocommands" ==> ok && Valid() && Everywhere(false) && rules == ""
      ensures Parse(t, op).SetAll? ==> Valid() && PermOf(allowed, firstargs) == Start(Parse(t, op).allow) && list == []
      ensures Parse(t, op).Rule? ==>
        && PermOf(allowed, firstargs) == Apply(old(PermOf(allowed, firstargs)), Parse(t, op).e)
        && (Keepable(Parse(t, op).e, op) ==> Valid()) && allowed[RESERVED] == old(allowed[RESERVED])
        && Lower(op) != "" && Words(old(list)) && list == Kept(old(list), Unmatched(old(list), Lower(op)[1..])) + [Lower(op)]
        && rules == Join(list)
    {
      hide FirstOf, BitsOf, Good, NoSubFirst, Apply, Lower, Words, Join, ParseAdd, ParseRemove, ParseCategory,
          AllListed, Replay, Plain, Everywhere;
      if Lower(op) == "allcommands" || Lower(op) == "+@all" {
        SetAll(true);
        return true;
      } else if Lower(op) == "nocommands" || Lower(op) == "-@all" {
        SetAll(false);
        return true;
      } else if op == "" {
        return false;
      } else if op[0] != '+' && op[0] != '-' {
        return OtherOp(op);
      }
      ListedWords(t, list, effects);
      ParseLower(t, op);
      LowerHead(op);
      ghost var p := PermOf(allowed, firstargs);
      if |op| > 1 && op[1] == '@' {
        ok := SetCategory(op[2..], op[0] == '+');
        LowerHead(op[1..]);
        assert op[1..][1..] == op[2..];
      } else if op[0] == '+' {
        ok := Add(op[1..]);
      } else {
        ok := Remove(op[1..]);
      }
      if ok && Keepable(Parse(t, op).e, op) {
        RuleListed(t, op);
        NewRule(t, p, old(list), old(effects), old(allowed[RESERVED]), Lower(op), Parse(t, op).e);
      }
    }

    /** ACLSetSelector is given a C string: an argument is cut at its first null. */
    method SetArgument(arg: string) returns (ok: bool)
      requires Valid()
      modifies this
      ensures Sized() && (ok <==> !Parse(t, CString(arg)).Invalid?) && (!ok ==> unchanged(this))
      ensures Parse(t, CString(arg)).Rule? ==>
        && PermOf(allowed, firstargs) == Apply(old(PermOf(allowed, firstargs)), Parse(t, CString(arg)).e)
        && (Keepable(Parse(t, CString(arg)).e, CString(arg)) ==> Valid())
      ensures !Parse(t, CString(arg)).Rule? ==> Valid()
    {
      hide Parse, Apply, PermOf;
      ok := Set(CString(arg));
    }
  }

  lemma NothingFirst(lists: seq<seq<string>>)
    requires forall i :: 0 <= i < |lists| ==> lists[i] == []
    ensures FirstOf(lists) == {}
  {
    hide FirstOf;
    assert forall f :: f in FirstOf(lists) ==> HasArg(lists[f.0], f.1);
  }

  lemma GoodIds(t: Table, c: Cmd)
    requires Good(t) && c in t.cmds
    ensures c.id < RESERVED && (forall j :: 0 <= j < |c.subs| ==> c.subs[j].id < RESERVED && IsSubId(t, c.subs[j].id))
    ensures !IsSubId(t, c.id)
  {
    assert GoodCmd(c);
    var i :| 0 <= i < |t.cmds| && t.cmds[i] == c;
  }

  lemma SubIdsNext(subs: seq<Sub>, j: nat)
    requires j < |subs|
    ensures SubIds(subs[..j + 1]) == SubIds(subs[..j]) + {subs[j].id}
  {
    assert subs[..j + 1] == subs[..j] + [subs[j]];
    forall id ensures id in SubIds(subs[..j + 1]) <==> id in SubIds(subs[..j]) + {subs[j].id} {
      if id in SubIds(subs[..j + 1]) {
        var k :| 0 <= k < |subs[..j + 1]| && subs[..j + 1][k].id == id;
        assert k < j ==> subs[..j][k].id == id;
      }
      if id in SubIds(subs[..j]) {
        var k :| 0 <= k < |subs[..j]| && subs[..j][k].id == id;
        assert subs[..j + 1][k].id == id;
      }
      assert subs[..j + 1][j].id == subs[j].id;
    }
  }

  lemma NoSubIds()
    ensures forall c: Cmd :: SubIds(c.subs[..0]) == {}
  {
  }

  lemma WithTwice(bits: set<nat>, allow: bool, a: set<nat>, b: set<nat>)
    ensures With(With(bits, allow, a), allow, b) == With(bits, allow, a + b)
  {
  }

  lemma CmdApplied(t: Table, c: Cmd, allow: bool, bits: set<nat>, first: set<(nat, string)>)
    requires Good(t) && c in t.cmds && NoSubFirst(t, first)
    ensures Perm(With(bits, allow, {c.id} + SubIds(c.subs)), Without(first, {c.id})) == Apply(Perm(bits, first),
        Change(allow, CmdIds(c)))
  {
    GoodIds(t, c);
    SubsHaveNoFirst(t, first, {c.id}, CmdIds(c));
  }

  /** Emptying the lists of subcommands changes nothing, as they are empty. */
  lemma SubsHaveNoFirst(t: Table, first: set<(nat, string)>, some: set<nat>, ids: set<nat>)
    requires NoSubFirst(t, first) && some <= ids && forall id :: id in ids && id !in some ==> IsSubId(t, id)
    ensures Without(first, ids) == Without(first, some)
  {
  }

  lemma ChangeNothing(p: Perm, allow: bool)
    ensures Apply(p, Change(allow, {})) == p
  {
    assert Without(p.first, {}) == p.first;
  }

  lemma ChangeTwice(p: Perm, allow: bool, a: set<nat>, b: set<nat>)
    ensures Apply(Apply(p, Change(allow, a)), Change(allow, b)) == Apply(p, Change(allow, a + b))
  {
    assert Without(Without(p.first, a), b) == Without(p.first, a + b);
  }

  lemma NoCatIds(subs: seq<Sub>, cat: string)
    ensures CatIds(subs[..0], cat) == {}
  {
  }

  lemma CatIdsNext(subs: seq<Sub>, cat: string, j: nat)
    requires j < |subs|
    ensures CatIds(subs[..j + 1], cat) == CatIds(subs[..j], cat) + if cat in subs[j].cats then {subs[j].id} else {}
  {
    var a, b := subs[..j + 1], subs[..j];
    assert a == b + [subs[j]];
    forall id ensures id in CatIds(a, cat) <==> id in CatIds(b, cat) + if cat in subs[j].cats then {subs[j].id} else {} {
      if id in CatIds(a, cat) {
        var k :| 0 <= k < |a| && cat in a[k].cats && a[k].id == id;
        assert k < j ==> b[k] == a[k];
      }
      if id in CatIds(b, cat) {
        var k :| 0 <= k < |b| && cat in b[k].cats && b[k].id == id;
        assert a[k] == b[k];
      }
      assert a[j] == subs[j];
    }
  }

  lemma {:induction false} KeptWords(list: seq<string>, keep: seq<bool>)
    requires Words(list) && |keep| == |list|
    ensures Words(Kept(list, keep))
  {
    if list != [] {
      var k := |list| - 1;
      WordsFront(list);
      KeptWords(list[..k], keep[..k]);
      assert Word(list[k]);
    }
  }

  lemma FirstApplied(p: Perm, id: nat, arg: string)
    ensures Perm(p.bits, p.first + {(id, arg)}) == Apply(p, Effect(true, {}, {}, {(id, arg)}))
  {
    assert Without(p.first, {}) == p.first;
  }

  // ----- Which operations can be kept -----

  /** Everything but a first argument with special characters. */
  ghost predicate Keepable(e: Effect, op: string) {
    e.adds == {} || Plain(op)
  }

  lemma LowerPlain(s: string)
    ensures Plain(Lower(s)) <==> Plain(s)
  {
    assert forall c :: Special(LowerChar(c)) <==> Special(c);
    assert forall i :: 0 <= i < |s| ==> (Special(Lower(s)[i]) <==> Special(s[i]));
  }

  lemma PlainParts(a: string, b: string)
    requires Plain(a) && Plain(b)
    ensures Plain(a + b)
  {
  }

  /** Names from the table are plain. */
  lemma NamesPlain(t: Table, n: string, e: Effect)
    requires Good(t) && Means(t, n, e) && e.adds == {} && Lower(n) == n
    ensures Plain(n)
  {
    hide CmdIds, CategoryIds, Lookup, Lower;
    LookupName(t, n);
    if n != "" && n[0] == '@' {
      assert GoodName(n[1..]);
      PlainParts("@", n[1..]);
      assert n == "@" + n[1..];
    } else {
      match Lookup(t, n)
      case Top(i) =>
        assert GoodCmd(t.cmds[i]);
      case Child(i, j) =>
        assert GoodCmd(t.cmds[i]);
        PlainParts(t.cmds[i].name, "|");
        PlainParts(t.cmds[i].name + "|", t.cmds[i].subs[j].name);
      case Nothing =>
    }
  }

  lemma RuleListed(t: Table, op: string)
    requires Good(t) && Parse(t, op).Rule? && Keepable(Parse(t, op).e, op)
    ensures Listed(t, Lower(op), Parse(t, op).e)
  {
    hide Parse, Lower, Means, Good;
    ParseLower(t, op);
    var e, name := Parse(t, op).e, Parse(t, op).name;
    assert Lower(op)[1..] == name;
    LowerTwice(op);
    LowerParts(Lower(op), 1);
    RuleMeans(t, Lower(op));
    if e.adds == {} {
      NamesPlain(t, name, e);
      PlainParts([Sign(e.allow)], name);
    } else {
      LowerPlain(op);
    }
  }

  // ----- Replaying the text -----

  /** The word that a description starts with. */
  function AllWord(all: bool): (word: string) {
    if all then "+@all" else "-@all"
  }

  lemma AllWordIs(t: Table, all: bool)
    ensures Lower(AllWord(all)) == AllWord(all) && Signed(AllWord(all)) && Plain(AllWord(all))
    ensures Parse(t, AllWord(all)) == SetAll(all)
  {
    var w := AllWord(all);
    assert forall i :: 0 <= i < |w| ==> LowerChar(w[i]) == w[i] && !Special(w[i]);
    assert Lower(w) == w;
  }

  /** The words of a description, without the one for all commands. */
  method ReplayRules(fake: Selector, words: seq<string>, ghost effects: seq<Effect>, ghost all: bool) returns (ok: bool)
    requires fake.Valid() && fake.list == [] && fake.allowed[RESERVED] == all
    requires PermOf(fake.allowed, fake.firstargs) == Start(all) && AllListed(fake.t, words, effects) && Settled(words)
    modifies fake
    ensures ok && fake.Valid() && fake.list == words && fake.allowed[RESERVED] == all
    ensures PermOf(fake.allowed, fake.firstargs) == Replay(Start(all), effects)
  {
    hide FirstOf, BitsOf, Good, NoSubFirst, Apply, Words, Join, Parse, Replay, Listed, Settled, Plain, Lower, Start;
    ok := true;
    ReplayNothing(words, effects, all);
    for i := 0 to |words|
      invariant fake.Valid() && fake.allowed[RESERVED] == all && ok && fake.list == words[..i]
      invariant PermOf(fake.allowed, fake.firstargs) == Replay(Start(all), effects[..i])
    {
      ReplayOne(fake.t, words, effects, i, all);
      var done := fake.Set(words[i]);
      ok := ok && done;
    }
    assert words[..|words|] == words && effects[..|effects|] == effects;
  }

  /**
    ACLDescribeSelectorCommandRules, with its checks. They never fail, and the selector
    rebuilt from the text has the same permissions and the same text.
  */
  method Describe(sel: Selector) returns (text: string, panic: bool, fake: Selector)
    requires sel.Valid()
    ensures !panic && text == (if sel.allowed[RESERVED] then "+@all" else "-@all") + (if sel.rules == ""
        then "" else " " + sel.rules)
    ensures SplitArgs(text) == Some([AllWord(sel.allowed[RESERVED])] + sel.list)
    ensures Played(sel.t, [AllWord(sel.allowed[RESERVED])] + sel.list) == PermOf(sel.allowed, sel.firstargs)
    ensures fresh(fake) && fake.Valid() && fake.allowed == sel.allowed && fake.rules == sel.rules
    ensures FirstOf(fake.firstargs) == FirstOf(sel.firstargs)
  {
    hide FirstOf, BitsOf, Good, NoSubFirst, Apply, Words, Join, Parse, Replay, Listed, Settled, Plain, Lower, Start, Played,
        SplitArgs;
    fake := new Selector(sel.t);
    var all := sel.allowed[RESERVED];
    AllWordIs(sel.t, all);
    text := AllWord(all) + " ";
    var first := fake.Set(AllWord(all));
    RulesSplit(sel.t, sel.list, sel.effects);
    var argv := SplitArgs(sel.rules);
    panic := argv.None?;
    var words := if argv.Some? then argv.value else [];
    var ok := ReplayRules(fake, words, sel.effects, all);
    panic := panic || !ok;
    SameBits(fake.allowed, sel.allowed);
    panic := panic || fake.allowed != sel.allowed;
    if sel.rules != "" {
      text := text + sel.rules + " ";
    }
    text := text[..|text| - 1];
    DescriptionWords(sel.t, sel.list, sel.effects, all);
    DescriptionPlays(sel.t, sel.list, sel.effects, all);
  }

  /** A description is split into its words. */
  lemma DescriptionWords(t: Table, list: seq<string>, effects: seq<Effect>, all: bool)
    requires AllListed(t, list, effects)
    ensures SplitArgs(AllWord(all) + (if Join(list) == "" then "" else " " + Join(list))) == Some([AllWord(all)] + list)
  {
    hide Parse, Plain, SplitArgs, Words, AllWord;
    var w := AllWord(all);
    AllWordIs(t, all);
    forall i | 0 <= i < |[w] + list| ensures Signed(([w] + list)[i]) && Plain(([w] + list)[i]) {
      assert i > 0 ==> Listed(t, list[i - 1], effects[i - 1]);
    }
    SplitJoin([w] + list);
    JoinNext([w] + list);
    assert ([w] + list)[1..] == list;
    ListedWords(t, list, effects);
    if list != [] {
      JoinNotEmpty(list);
    }
  }

  /** Playing the words of a description, the first included, grants what the rules grant. */
  lemma {:induction false} DescriptionPlays(t: Table, list: seq<string>, effects: seq<Effect>, all: bool)
    requires AllListed(t, list, effects)
    ensures Played(t, [AllWord(all)] + list) == Replay(Start(all), effects)
  {
    hide Parse, Plain, Apply, Start, AllWord;
    var w := AllWord(all);
    AllWordIs(t, all);
    if list == [] {
      assert [w] + list == [w] && [w][..0] == [];
    } else {
      var n := |list| - 1;
      DescriptionPlays(t, list[..n], effects[..n], all);
      assert ([w] + list)[..|[w] + list| - 1] == [w] + list[..n];
      assert Listed(t, list[n], effects[n]);
    }
  }

  /** All the words of a description, given to a new selector, make it the same again. */
  method Reread(sel: Selector) returns (again: Selector, ok: bool)
    requires sel.Valid()
    ensures ok && fresh(again) && again.Valid() && again.t == sel.t && again.allowed == sel.allowed && again.rules == sel.rules
    ensures FirstOf(again.firstargs) == FirstOf(sel.firstargs)
  {
    hide FirstOf, BitsOf, Good, NoSubFirst, Apply, Words, Join, Parse, Replay, Listed, Settled, Plain, Lower, Start, Played,
        SplitArgs;
    var text, panic, fake := Describe(sel);
    var words := SplitArgs(text).value;
    again := new Selector(sel.t);
    AllWordIs(sel.t, sel.allowed[RESERVED]);
    ok := again.Set(words[0]);
    assert words[1..] == sel.list;
    var rest := ReplayRules(again, words[1..], sel.effects, sel.allowed[RESERVED]);
    ok := ok && rest;
    SameBits(again.allowed, sel.allowed);
  }

  lemma RulesSplit(t: Table, list: seq<string>, effects: seq<Effect>)
    requires AllListed(t, list, effects)
    ensures SplitArgs(Join(list)) == Some(list)
  {
    hide Parse, Plain, Join;
    forall i | 0 <= i < |list| ensures Signed(list[i]) && Plain(list[i]) {
      assert Listed(t, list[i], effects[i]);
    }
    SplitJoin(list);
  }

  lemma ReplayNothing(list: seq<string>, effects: seq<Effect>, all: bool)
    ensures Replay(Start(all), effects[..0]) == Start(all) && list[..0] == []
  {
  }

  /** The next rule of a settled list is parsed as recorded and goes to the end of the earlier ones. */
  lemma ReplayOne(t: Table, list: seq<string>, effects: seq<Effect>, i: nat, all: bool)
    requires AllListed(t, list, effects) && Settled(list) && i < |list|
    ensures Parse(t, list[i]) == Rule(effects[i], list[i][1..]) && Keepable(effects[i], list[i]) && list[i] != "" &&
        Lower(list[i]) == list[i]
    ensures Words(list[..i]) && Kept(list[..i], Unmatched(list[..i], list[i][1..])) + [list[i]] == list[..i + 1]
    ensures Replay(Start(all), effects[..i + 1]) == Apply(Replay(Start(all), effects[..i]), effects[i])
  {
    hide Parse, Plain, Matches, Lower, Apply;
    assert Listed(t, list[i], effects[i]);
    ParseLower(t, list[i]);
    ListedWords(t, list, effects);
    forall k | 0 <= k < i ensures Word(list[..i][k]) {
      assert Word(list[k]);
    }
    KeptAll(list[..i], Unmatched(list[..i], list[i][1..]));
    assert effects[..i + 1] == effects[..i] + [effects[i]];
    ReplayNext(Start(all), effects[..i], effects[i]);
    LowerSigned(list[i]);
  }

  lemma LowerSigned(text: string)
    requires Signed(text)
    ensures Lower(text)[0] == text[0] && Lower(text) == [text[0]] + Lower(text)[1..] && text == [text[0]] + text[1..]
  {
  }

  lemma SameBits(a: seq<bool>, b: seq<bool>)
    requires |a| == |b| && BitsOf(a) == BitsOf(b)
    ensures a == b
  {
    forall i: nat | i < |a| ensures a[i] == b[i] {
      assert i in BitsOf(a) <==> i in BitsOf(b);
    }
  }

  /** What a history of operations grants, each on what the ones before it left; refused ones change nothing. */
  function Played(t: Table, ops: seq<string>): (p: Perm) {
    if ops == [] then Start(false)
    else
      var p := Played(t, ops[..|ops| - 1]);
      match Parse(t, ops[|ops| - 1])
      case SetAll(allow) => Start(allow)
      case Rule(e, _) => Apply(p, e)
      case _ => p
  }

  lemma PlayedNext(t: Table, ops: seq<string>, i: nat)
    requires i < |ops|
    ensures var p, p' := Played(t, ops[..i]), Played(t, ops[..i + 1]);
      match Parse(t, ops[i])
      case SetAll(allow) => p' == Start(allow)
      case Rule(e, _) => p' == Apply(p, e)
      case _ => p' == p
  {
    hide Parse, Start, Apply;
    assert ops[..i + 1][..i] == ops[..i];
  }

  ghost predicate AllKeepable(t: Table, ops: seq<string>) {
    forall i :: 0 <= i < |ops| && Parse(t, ops[i]).Rule? ==> Keepable(Parse(t, ops[i]).e, ops[i])
  }

  /**
    Operations whose first arguments are plain, on a selector in good order or, if the first of them is +@all
    or -@all, on any selector: it grants what the whole history grants, and its text reproduces that.
  */
  method GoOn(sel: Selector, ghost before: seq<string>, ops: seq<string>)
    requires Good(sel.t) && AllKeepable(sel.t, ops)
    requires if ops != [] && Parse(sel.t, ops[0]).SetAll? then true
      else sel.Valid() && PermOf(sel.allowed, sel.firstargs) == Played(sel.t, before)
    modifies sel
    ensures sel.Valid() && PermOf(sel.allowed, sel.firstargs) == Played(sel.t, before + ops)
  {
    hide Parse, Good, Played, Start, Apply, Reproduces, FirstOf, BitsOf, PermOf, Keepable;
    assert before + ops[..0] == before;
    for i := 0 to |ops|
      invariant if i == 0 && ops != [] && Parse(sel.t, ops[0]).SetAll? then true
        else sel.Valid() && PermOf(sel.allowed, sel.firstargs) == Played(sel.t, before + ops[..i])
    {
      PlayedMore(sel.t, before, ops, i);
      var ok := sel.Set(ops[i]);
    }
    assert ops[..|ops|] == ops;
  }

  lemma PlayedMore(t: Table, before: seq<string>, ops: seq<string>, i: nat)
    requires i < |ops|
    ensures var p, p' := Played(t, before + ops[..i]), Played(t, before + ops[..i + 1]);
      match Parse(t, ops[i])
      case SetAll(allow) => p' == Start(allow)
      case Rule(e, _) => p' == Apply(p, e)
      case _ => p' == p
  {
    hide Parse, Start, Apply, Played;
    var all, n := before + ops, |before| + i;
    PlayedNext(t, all, n);
    assert all[..n] == before + ops[..i] && all[..n + 1] == before + ops[..i + 1];
  }

  /** Any history of operations whose first arguments are plain leaves a selector that grants it and that its text reproduces. */
  method History(t: Table, ops: seq<string>) returns (sel: Selector)
    requires Good(t) && AllKeepable(t, ops)
    ensures fresh(sel) && sel.Valid() && sel.t == t && PermOf(sel.allowed, sel.firstargs) == Played(t, ops)
    ensures Undoubled(sel.list)
  {
    hide Parse, Good, Played, Start, Apply, Reproduces, FirstOf, BitsOf, PermOf, Keepable, AllKeepable, Undoubled;
    sel := new Selector(t);
    PlayedNothing(t, ops);
    GoOn(sel, ops[..0], ops);
    assert ops[..0] + ops == ops;
    OneRuleEach(t, PermOf(sel.allowed, sel.firstargs), sel.list, sel.effects, sel.allowed[RESERVED]);
  }

  /** No name has two rules, and no subcommand or first argument has one before the rule of its command. */
  ghost predicate Undoubled(list: seq<string>) {
    forall i, j :: 0 <= i < j < |list| ==>
      list[i] != "" && list[j] != "" && list[i][1..] != list[j][1..] && !(list[j][1..] + "|" <= list[i][1..])
  }

  lemma OneRuleEach(t: Table, p: Perm, list: seq<string>, effects: seq<Effect>, all: bool)
    requires Reproduces(t, p, list, effects, all)
    ensures Undoubled(list)
  {
    hide Parse, Plain, Replay, Matches;
    forall i, j | 0 <= i < j < |list|
      ensures list[i] != "" && list[j] != "" && list[i][1..] != list[j][1..] && !(list[j][1..] + "|" <= list[i][1..])
    {
      assert Listed(t, list[i], effects[i]) && Listed(t, list[j], effects[j]);
      ExtendedMatches(list[i][1..], list[j][1..]);
    }
  }

  lemma ExtendedMatches(a: string, b: string)
    ensures a == b || b + "|" <= a ==> Matches(a, b)
  {
    if b + "|" <= a {
      assert a[|b|] == (b + "|")[|b|] && a[..|b|] == (b + "|")[..|b|];
    }
  }

  lemma PlayedNothing(t: Table, ops: seq<string>)
    ensures Played(t, ops[..0]) == Start(false)
  {
  }

  // ----- First arguments with special characters -----

  /** A rule's text is read back as that rule exactly when it can be kept. */
  lemma ReadBackIff(t: Table, op: string)
    requires Good(t) && Parse(t, op).Rule?
    ensures SplitArgs(Lower(op)) == Some([Lower(op)]) <==> Keepable(Parse(t, op).e, op)
  {
    hide Parse, Lower, Plain, SplitArgs;
    ParseLower(t, op);
    SplitIff(Lower(op));
    LowerPlain(op);
    if Keepable(Parse(t, op).e, op) {
      RuleListed(t, op);
    }
  }
}
