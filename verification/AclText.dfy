/**
  The text of a selector's command rules: rules separated by single spaces, edited in
  place, and split again with the quoting rules of the configuration file.
*/
module AclText {
  import opened Common
  import opened AclRules

  function LowerChar(c: char): (d: char) {
    if 'A' <= c <= 'Z' then c - 'A' + 'a' else c
  }

  function Lower(s: string): (t: string)
    ensures |t| == |s|
  {
    seq(|s|, i requires 0 <= i < |s| => LowerChar(s[i]))
  }

  /** What a C function sees of a string. */
  function CString(s: string): (t: string)
    ensures |t| <= |s| && t == s[..|t|] && '\0' !in t && (|t| < |s| ==> s[|t|] == '\0')
  {
    if s == "" || s[0] == '\0' then "" else [s[0]] + CString(s[1..])
  }

  // ----- Joining -----

  function Join(rules: seq<string>): (s: string) {
    if rules == [] then "" else if |rules| == 1 then rules[0] else rules[0] + " " + Join(rules[1..])
  }

  /** What stands before the rules that follow. */
  function Prefix(rules: seq<string>): (s: string) {
    if rules == [] then "" else Join(rules) + " "
  }

  ghost predicate Word(rule: string) {
    rule != "" && ' ' !in rule
  }

  ghost predicate Words(rules: seq<string>) {
    forall i :: 0 <= i < |rules| ==> Word(rules[i])
  }

  lemma {:induction false} JoinSplit(a: seq<string>, b: seq<string>)
    requires b != []
    ensures Join(a + b) == Prefix(a) + Join(b)
  {
    if a == [] {
      assert a + b == b;
    } else {
      assert (a + b)[1..] == a[1..] + b;
      JoinSplit(a[1..], b);
      assert |a| == 1 ==> a[1..] == [];
    }
  }

  lemma PrefixNext(a: seq<string>, r: string)
    ensures Prefix(a + [r]) == Prefix(a) + r + " " && Join(a + [r]) == Prefix(a) + r
  {
    JoinSplit(a, [r]);
  }

  // ----- Removing rules in place -----

  /** An existing rule, without its sign, that a new one replaces: the same, or one of its subcommands. */
  predicate Matches(existing: string, newRule: string) {
    || existing == newRule
    || (|existing| > |newRule| && existing[..|newRule|] == newRule && existing[|newRule|] == '|')
  }

  ghost function Unmatched(rules: seq<string>, newRule: string): (keep: seq<bool>)
    requires Words(rules)
    ensures |keep| == |rules| && forall i :: 0 <= i < |rules| ==> keep[i] == !Matches(rules[i][1..], newRule)
  {
    seq(|rules|, i requires 0 <= i < |rules| => assert Word(rules[i]); !Matches(rules[i][1..], newRule))
  }

  /** strchr for a space. */
  method FindSpace(s: string, from: nat, ghost rule: string, ghost rest: string) returns (end: nat)
    requires from <= |s| && s[from..] == rule + rest && ' ' !in rule && (rest == "" || rest[0] == ' ')
    ensures end == from + |rule|
  {
    end := from;
    while end < |s| && s[end] != ' '
      invariant from <= end <= from + |rule|
    {
      assert s[end] == s[from..][end - from] == (rule + rest)[end - from];
      end := end + 1;
    }
    if end < |s| {
      assert s[end] == s[from..][end - from] == (rule + rest)[end - from];
    }
    assert |s| == from + |rule| + |rest|;
  }

  /** ACLSelectorRemoveCommandRule. */
  method RemoveRule(text: string, newRule: string, ghost rules: seq<string>) returns (s: string)
    requires text == Join(rules) && Words(rules)
    ensures s == Join(Kept(rules, Unmatched(rules, newRule)))
  {
    hide Join, Prefix, Matches, Kept;
    s := text;
    var pos := 0;
    ghost var i, kept := 0, [];
    ghost var keep := Unmatched(rules, newRule);
    RemoveStart(rules);
    while pos < |s|
      invariant 0 <= i <= |rules| && kept == Kept(rules[..i], keep[..i])
      invariant i < |rules| ==> s == Prefix(kept) + Join(rules[i..]) && pos == |Prefix(kept)|
      invariant i == |rules| ==> s == Join(kept) && pos == |s|
      decreases |rules| - i
    {
      RemoveStep(rules, i, kept, s);
      var copy, existing := pos, pos + 1;
      ghost var r, rest := rules[i], s[pos + |rules[i]|..];
      var end := FindSpace(s, existing, r[1..], rest);
      if end == |s| && copy != 0 {
        copy := copy - 1;
      }
      var copyEnd := if end < |s| then end + 1 else end;
      assert s[existing..end] == r[1..];
      KeptNext(rules, keep, i);
      if Matches(s[existing..end], newRule) {
        s := s[..copy] + s[copyEnd..];
        pos := copy;
      } else {
        kept := kept + [r];
        pos := copyEnd;
      }
      i := i + 1;
    }
    RemoveDone(rules, i, kept, s);
    assert rules[..|rules|] == rules && keep[..|keep|] == keep;
  }

  lemma RemoveStart(rules: seq<string>)
    ensures Prefix([]) == "" && Join([]) == "" && rules[0..] == rules && "" + Join(rules) == Join(rules)
    ensures Kept<string>([], []) == []
  {
  }

  lemma JoinNotEmpty(rules: seq<string>)
    requires Words(rules) && rules != []
    ensures Join(rules) != ""
  {
    assert Word(rules[0]);
  }

  lemma RemoveDone(rules: seq<string>, i: nat, kept: seq<string>, s: string)
    requires Words(rules) && i <= |rules|
    ensures i < |rules| && s == Prefix(kept) + Join(rules[i..]) ==> |s| > |Prefix(kept)|
  {
    if i < |rules| {
      JoinNotEmpty(rules[i..]);
    }
  }

  lemma KeptNext(rules: seq<string>, keep: seq<bool>, i: nat)
    requires |keep| == |rules| && i < |rules|
    ensures Kept(rules[..i + 1], keep[..i + 1]) == Kept(rules[..i], keep[..i]) + if keep[i] then [rules[i]] else []
    ensures keep[i] || Kept(rules[..i + 1], keep[..i + 1]) == Kept(rules[..i], keep[..i])
  {
    assert rules[..i + 1][..i] == rules[..i] && keep[..i + 1][..i] == keep[..i];
  }

  /** The text at the rule under the cursor. */
  lemma RemoveStep(rules: seq<string>, i: nat, kept: seq<string>, s: string)
    requires Words(rules) && i < |rules| && s == Prefix(kept) + Join(rules[i..])
    ensures var r, pos, tail := rules[i], |Prefix(kept)|, (if i + 1 < |rules| then " " + Join(rules[i + 1..]) else "");
      && r != "" && ' ' !in r[1..] && s == Prefix(kept) + r + tail
      && pos + |r| <= |s| && s[pos + |r|..] == tail && s[pos + 1..] == r[1..] + tail && s[pos + 1..pos + |r|] == r[1..]
      && (i + 1 < |rules| ==> s[..pos] + s[pos + |r| + 1..] == Prefix(kept) + Join(rules[i + 1..]))
      && (i + 1 < |rules| ==> s == Prefix(kept + [r]) + Join(rules[i + 1..]) && |Prefix(kept + [r])| == pos + |r| + 1)
      && (i + 1 == |rules| ==> s == Join(kept + [r]) && (if pos == 0 then Join(kept) == "" else s[..pos - 1] == Join(kept)))
  {
    hide Join, Prefix;
    var r, p := rules[i], Prefix(kept);
    assert Word(r);
    var t := Join(rules[i + 1..]);
    JoinNext(rules[i..]);
    assert rules[i..][1..] == rules[i + 1..];
    PrefixNext(kept, r);
    PrefixEmpty(kept);
    if i + 1 < |rules| {
      Slices(p, r, " " + t);
      Removed(p, r, t);
    } else {
      Slices(p, r, "");
      assert r + "" == r && p + r + "" == p + r;
    }
  }

  lemma Slices(p: string, r: string, tail: string)
    requires r != ""
    ensures var s := p + r + tail;
      && s == p + (r + tail) && s[|p| + |r|..] == tail && s[|p| + 1..] == r[1..] + tail && s[|p| + 1..|p| + |r|] == r[1..]
      && s[..|p|] == p && (p != "" ==> s[..|p| - 1] == p[..|p| - 1])
  {
  }

  lemma Removed(p: string, r: string, t: string)
    ensures var s := p + r + (" " + t); s == (p + r + " ") + t && s[..|p|] + s[|p| + |r| + 1..] == p + t
  {
  }

  lemma JoinNext(rules: seq<string>)
    requires rules != []
    ensures Join(rules) == rules[0] + if |rules| > 1 then " " + Join(rules[1..]) else ""
  {
  }

  lemma PrefixEmpty(kept: seq<string>)
    ensures if |Prefix(kept)| == 0 then Join(kept) == "" else Prefix(kept) == Join(kept) + " "
  {
  }
}
