/**
  Exactly which rules the text of a selector reproduces: for every selector whose text
  is good, and every further rule, the text stays good if and only if the rule's first
  argument is plain.
*/
module AclReadBack {
  import opened Common
  import opened AclRules
  import opened AclText
  import opened AclSplit
  import opened AclTable
  import opened Acl

  // ----- Rebuilding permissions from a text -----

  /** ACLSetSelector on the rebuilt permissions; nothing is left of them after a failed assertion. */
  function Redo(t: Table, p: Option<Perm>, word: string): (r: Option<Perm>) {
    if p.None? then None
    else
      match Parse(t, CString(word))
      case SetAll(allow) => Some(Start(allow))
      case Rule(e, _) => Some(Apply(p.value, e))
      case Other => p
      case Invalid => None
  }

  function RedoAll(t: Table, all: bool, words: seq<string>): (r: Option<Perm>) {
    if words == [] then Some(Start(all)) else Redo(t, RedoAll(t, all, words[..|words| - 1]), words[|words| - 1])
  }

  /** What a text stands for, from everything or from nothing. */
  function Rebuilt(t: Table, all: bool, text: string): (r: Option<Perm>) {
    var words := SplitArgs(text);
    if words.None? then None else RedoAll(t, all, words.value)
  }

  lemma {:induction false} RedoListed(t: Table, all: bool, list: seq<string>, effects: seq<Effect>)
    requires AllListed(t, list, effects)
    ensures RedoAll(t, all, list) == Some(Replay(Start(all), effects))
  {
    hide Parse, Apply, Start, Plain, CString;
    if list != [] {
      PlainIsC(list[|list| - 1]);
      RedoListed(t, all, list[..|list| - 1], effects[..|effects| - 1]);
      assert Listed(t, list[|list| - 1], effects[|effects| - 1]);
    }
  }

  lemma PlainIsC(s: string)
    ensures Plain(s) ==> CString(s) == s
  {
    hide CString;
    var n := |CString(s)|;
    assert n < |s| ==> Special(s[n]);
  }

  /** A first argument was added by one of the words. */
  lemma {:induction false} AddedBy(t: Table, all: bool, words: seq<string>, f: (nat, string)) returns (k: nat)
    requires RedoAll(t, all, words).Some? && f in RedoAll(t, all, words).value.first
    ensures k < |words| && Parse(t, CString(words[k])).Rule? && f in Parse(t, CString(words[k])).e.adds
  {
    hide Parse, CString;
    k := |words| - 1;
    var front := words[..k];
    if !(Parse(t, CString(words[k])).Rule? && f in Parse(t, CString(words[k])).e.adds) {
      k := AddedBy(t, all, front, f);
    }
  }

  /** A rule that adds a first argument spells the command, a bar and the argument. */
  lemma Spelled(t: Table, w: string, f: (nat, string)) returns (i: nat, name: string, arg: string)
    requires Parse(t, w).Rule? && f in Parse(t, w).e.adds
    ensures i < |t.cmds| && t.cmds[i].id == f.0 && Lower(name) == t.cmds[i].name && Lower(arg) == f.1
    ensures w == "+" + name + "|" + arg
  {
    hide Lookup, Lower, CmdIds, CategoryIds, LastBar;
    var n := w[1..];
    var k := LastBar(n);
    name, arg := n[..k], n[k + 1..];
    i := Lookup(t, name).i;
    LookupName(t, name);
    assert n == name + "|" + arg;
  }

  // ----- Splitting after plain words -----

  lemma {:induction false} SplitAfter(kept: seq<string>, rest: string)
    requires Signed(rest) && forall i :: 0 <= i < |kept| ==> Signed(kept[i]) && Plain(kept[i])
    ensures SplitArgs(rest).None? ==> SplitArgs(Prefix(kept) + rest) == None
    ensures SplitArgs(rest).Some? ==> SplitArgs(Prefix(kept) + rest) == Some(kept + SplitArgs(rest).value)
  {
    hide Plain, Signed;
    if kept == [] {
      assert Prefix(kept) + rest == rest;
      assert SplitArgs(rest).Some? ==> kept + SplitArgs(rest).value == SplitArgs(rest).value;
    } else {
      var r, tail := kept[0], Prefix(kept[1..]) + rest;
      PrefixFirst(kept);
      assert Prefix(kept) + rest == r + (" " + tail);
      SplitWord(r, tail);
      SplitAfter(kept[1..], rest);
      assert SplitArgs(rest).Some? ==> [r] + (kept[1..] + SplitArgs(rest).value) == kept + SplitArgs(rest).value;
    }
  }

  lemma PrefixFirst(kept: seq<string>)
    requires kept != []
    ensures Prefix(kept) == kept[0] + " " + Prefix(kept[1..])
  {
    JoinNext(kept);
    if |kept| == 1 {
      assert kept[1..] == [];
    }
  }

  lemma SplitWord(r: string, tail: string)
    requires Signed(r) && Plain(r)
    ensures SplitArgs(r + (" " + tail)) == Then(r, SplitArgs(tail))
  {
    var s := r + (" " + tail);
    assert s[0] == r[0] && !Blank(s[0]);
    InsidePlain(r, " " + tail, "");
    assert "" + r == r && (" " + tail)[1..] == tail;
  }

  // ----- The lost argument -----

  lemma {:induction false} InTotal(words: seq<string>, k: nat)
    requires k < |words|
    ensures |words[k]| <= Total(words)
  {
    if k > 0 {
      InTotal(words[1..], k - 1);
    }
  }

  lemma PlainEnd(a: string, b: string)
    ensures Plain(a + b) <==> Plain(a) && Plain(b)
  {
    var s := a + b;
    assert forall i :: 0 <= i < |a| ==> s[i] == a[i];
    assert Plain(s) ==> Plain(b) by {
      forall i | Plain(s) && 0 <= i < |b| ensures !Special(b[i]) {
        assert s[|a| + i] == b[i];
      }
    }
  }

  /** Names of commands belong to one identifier. */
  ghost predicate OwnIds(t: Table) {
    forall i, k :: 0 <= i < |t.cmds| && 0 <= k < |t.cmds| && t.cmds[i].id == t.cmds[k].id ==> t.cmds[i].name == t.cmds[k].name
  }

  /** Two words that add the same first argument are equally long and equally plain. */
  lemma SameAdds(t: Table, v: string, w: string, f: (nat, string))
    requires Good(t) && OwnIds(t) && Parse(t, v).Rule? && f in Parse(t, v).e.adds && Parse(t, w).Rule? && f in Parse(t, w).e.adds
    ensures |v| == |w| && (Plain(v) <==> Plain(w))
  {
    hide Parse, Lower, Plain;
    var i, n, x := Spelled(t, v, f);
    var k, m, y := Spelled(t, w, f);
    LowerSame(n, m);
    LowerSame(x, y);
    LowerPlain(n);
    LowerPlain(m);
    LowerPlain(x);
    LowerPlain(y);
    PlainEnd("+" + n + "|", x);
    PlainEnd("+" + m + "|", y);
    PlainEnd("+" + n, "|");
    PlainEnd("+" + m, "|");
    PlainEnd("+", n);
    PlainEnd("+", m);
  }

  lemma LowerSame(a: string, b: string)
    requires Lower(a) == Lower(b)
    ensures |a| == |b|
  {
    assert |Lower(a)| == |a| && |Lower(b)| == |b|;
  }

  /** No word of the text adds the first argument of a rule at its end that is not plain. */
  lemma NobodyAdds(t: Table, kept: seq<string>, rule: string, words: seq<string>, k: nat, f: (nat, string))
    requires Good(t) && OwnIds(t) && Parse(t, rule).Rule? && f in Parse(t, rule).e.adds && Signed(rule) && !Plain(rule)
    requires forall i :: 0 <= i < |kept| ==> Signed(kept[i]) && Plain(kept[i])
    requires SplitArgs(Prefix(kept) + rule) == Some(words) && k < |words| && Parse(t, CString(words[k])).Rule?
    ensures f !in Parse(t, CString(words[k])).e.adds
  {
    hide Parse, Plain, Good, OwnIds, SplitArgs, Prefix, CString;
    SplitAfter(kept, rule);
    var own := SplitArgs(rule).value;
    RuleShrinks(rule);
    PlainIsC(words[k]);
    if f in Parse(t, CString(words[k])).e.adds {
      SameAdds(t, rule, CString(words[k]), f);
      if k >= |kept| {
        InTotal(own, k - |kept|);
      }
      assert false;
    }
  }

  lemma RuleShrinks(rule: string)
    requires Signed(rule) && !Plain(rule)
    ensures SplitArgs(rule).Some? ==> Total(SplitArgs(rule).value) < |rule|
  {
    SplitShrinks(rule, Inside, "");
  }

  // ----- Every step -----

  /**
    After one more rule on a selector whose text is good, the text stands for the
    selector's permissions if and only if the rule's first argument is plain.
  */
  lemma StepReproducesIff(t: Table, p: Perm, list: seq<string>, effects: seq<Effect>, all: bool, op: string)
    requires Good(t) && OwnIds(t) && Reproduces(t, p, list, effects, all) && Words(list) && Parse(t, op).Rule? && Lower(op) != ""
    ensures var kept := Kept(list, Unmatched(list, Lower(op)[1..])) + [Lower(op)];
      Rebuilt(t, all, Join(kept)) == Some(Apply(p, Parse(t, op).e)) <==> Keepable(Parse(t, op).e, op)
  {
    hide Parse, Lower, Apply, Plain, RedoAll, Replay, Settled, Good;
    var rule, e := Lower(op), Parse(t, op).e;
    var keep := Unmatched(list, rule[1..]);
    if Keepable(e, op) {
      RuleListed(t, op);
      NewRule(t, p, list, effects, all, rule, e);
      RulesSplit(t, Kept(list, keep) + [rule], Kept(effects, keep) + [e]);
      RedoListed(t, all, Kept(list, keep) + [rule], Kept(effects, keep) + [e]);
    } else {
      KeptListed(t, list, effects, keep);
      LostArgument(t, p, Kept(list, keep), Kept(effects, keep), all, op);
    }
  }

  lemma LostArgument(t: Table, p: Perm, kept: seq<string>, effects: seq<Effect>, all: bool, op: string)
    requires Good(t) && OwnIds(t) && AllListed(t, kept, effects) && Parse(t, op).Rule? && !Keepable(Parse(t, op).e, op)
    ensures Rebuilt(t, all, Join(kept + [Lower(op)])) != Some(Apply(p, Parse(t, op).e))
  {
    hide Parse, Lower, Plain, RedoAll, Good, OwnIds, SplitArgs, Prefix;
    var rule, e := Lower(op), Parse(t, op).e;
    ParseLower(t, op);
    LowerPlain(op);
    PrefixNext(kept, rule);
    var f :| f in e.adds;
    assert f in Apply(p, e).first;
    var text := Prefix(kept) + rule;
    if SplitArgs(text).Some? && RedoAll(t, all, SplitArgs(text).value).Some? &&
      f in RedoAll(t, all, SplitArgs(text).value).value.first {
      var k := AddedBy(t, all, SplitArgs(text).value, f);
      forall i | 0 <= i < |kept| ensures Signed(kept[i]) && Plain(kept[i]) {
        assert Listed(t, kept[i], effects[i]);
      }
      NobodyAdds(t, kept, rule, SplitArgs(text).value, k, f);
      assert false;
    }
  }

  /** A good text stands for the permissions behind it. */
  lemma GoodTextRebuilds(t: Table, p: Perm, list: seq<string>, effects: seq<Effect>, all: bool)
    requires Reproduces(t, p, list, effects, all)
    ensures Rebuilt(t, all, Join(list)) == Some(p)
  {
    hide Parse, Plain, RedoAll, Replay, Settled;
    RulesSplit(t, list, effects);
    RedoListed(t, all, list, effects);
  }

  /** Any operation on a selector with a good text. */
  method SetAndRebuild(sel: Selector, op: string) returns (ok: bool)
    requires sel.Valid() && OwnIds(sel.t)
    modifies sel
    ensures sel.Sized() && (ok <==> !Parse(sel.t, op).Invalid?)
    ensures Rebuilt(sel.t, sel.allowed[RESERVED], sel.rules) == Some(PermOf(sel.allowed, sel.firstargs)) <==>
      (Parse(sel.t, op).Rule? ==> Keepable(Parse(sel.t, op).e, op))
  {
    hide Parse, Plain, RedoAll, Replay, Settled, Good, OwnIds, PermOf, Apply, Join, Start, Rebuilt, AllListed,
        NoSubFirst, BitsOf, FirstOf, Keepable;
    ghost var p, list, effects, all := PermOf(sel.allowed, sel.firstargs), sel.list, sel.effects, sel.allowed[RESERVED];
    ok := sel.Set(op);
    if Parse(sel.t, op).Rule? {
      StepReproducesIff(sel.t, p, list, effects, all, op);
    } else {
      GoodTextRebuilds(sel.t, PermOf(sel.allowed, sel.firstargs), sel.list, sel.effects, sel.allowed[RESERVED]);
    }
  }

  /**
    Though rules are deleted from the text in place, after any history with plain first arguments (at least
    since the last +@all or -@all) the selector's text stands for what the whole history grants.
  */
  method HistoryRebuilds(sel: Selector, ghost before: seq<string>, ops: seq<string>)
    requires Good(sel.t) && AllKeepable(sel.t, ops)
    requires if ops != [] && Parse(sel.t, ops[0]).SetAll? then true
      else sel.Valid() && PermOf(sel.allowed, sel.firstargs) == Played(sel.t, before)
    modifies sel
    ensures sel.Valid() && PermOf(sel.allowed, sel.firstargs) == Played(sel.t, before + ops)
    ensures Rebuilt(sel.t, sel.allowed[RESERVED], sel.rules) == Some(Played(sel.t, before + ops))
  {
    hide Parse, Good, Played, Rebuilt, Reproduces, FirstOf, BitsOf, PermOf, Keepable, AllKeepable;
    GoOn(sel, before, ops);
    GoodTextRebuilds(sel.t, PermOf(sel.allowed, sel.firstargs), sel.list, sel.effects, sel.allowed[RESERVED]);
  }

  /** A first argument with a space is accepted, and the text no longer stands for it. */
  lemma SpaceIsLost(t: Table, i: nat)
    requires Good(t) && OwnIds(t) && i < |t.cmds| && t.cmds[i].subs == [] && Lookup(t, t.cmds[i].name) == Top(i)
    ensures var op := "+" + t.cmds[i].name + "|a b";
      Parse(t, op).Rule? && Rebuilt(t, false, Lower(op)) != Some(Apply(Start(false), Parse(t, op).e))
  {
    hide Parse, Lookup, Lower, Plain, RedoAll, Good, OwnIds, Start, Apply;
    var op := "+" + t.cmds[i].name + "|a b";
    SpaceParses(t, i);
    assert op[1..] == t.cmds[i].name + "|a b" && op[1] == t.cmds[i].name[0];
    NotAll(op);
    SpaceRule(t, op);
    LostArgument(t, Start(false), [], [], false, op);
    assert [] + [Lower(op)] == [Lower(op)];
  }

  lemma SpaceRule(t: Table, op: string)
    requires |op| > 2 && op[0] == '+' && op[1] != '@' && op[|op| - 2] == ' ' && ParseAdd(t, op[1..]).Rule? &&
        ParseAdd(t, op[1..]).e.adds != {}
    requires Lower(op) != "allcommands" && Lower(op) != "nocommands" && Lower(op) != "+@all" && Lower(op) != "-@all"
    ensures Parse(t, op).Rule? && !Keepable(Parse(t, op).e, op)
  {
    assert Special(op[|op| - 2]);
  }

  lemma SpaceParses(t: Table, i: nat)
    requires Good(t) && i < |t.cmds| && t.cmds[i].subs == [] && Lookup(t, t.cmds[i].name) == Top(i)
    ensures t.cmds[i].name != "" && t.cmds[i].name[0] != '@'
    ensures ParseAdd(t, t.cmds[i].name + "|a b").Rule? && ParseAdd(t, t.cmds[i].name + "|a b").e.adds != {}
  {
    hide Lookup, Lower;
    assert GoodCmd(t.cmds[i]);
    var name := t.cmds[i].name;
    var full := name + "|a b";
    assert full[|name|] == '|' && full[|name| + 1] == 'a' && full[|name| + 2] == ' ' && full[|name| + 3] == 'b';
    assert LastBar(full) == |name| && full[..|name|] == name && full[|name| + 1..] == "a b";
  }

  lemma NotAll(op: string)
    requires |op| > 1 && op[0] == '+' && op[1] != '@'
    ensures Lower(op) != "allcommands" && Lower(op) != "nocommands" && Lower(op) != "+@all" && Lower(op) != "-@all"
  {
    LowerHead(op);
  }
}
