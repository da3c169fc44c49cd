/** Splitting a line into words, with double and single quotes. */
module AclSplit {
  import opened Common
  import opened AclText

  predicate Blank(c: char) {
    c in [' ', '\t', '\n', '\U{000B}', '\U{000C}', '\r']
  }

  /** Characters that end a word or start a quotation. */
  predicate Special(c: char) {
    c in [' ', '\n', '\r', '\t', '\0', '"', '\'']
  }

  predicate Hex(c: char) {
    '0' <= c <= '9' || 'a' <= c <= 'f' || 'A' <= c <= 'F'
  }

  function HexValue(c: char): (n: nat)
    requires Hex(c)
    ensures n < 16
  {
    if c <= '9' then (c - '0') as int else if c <= 'F' then (c - 'A') as int + 10 else (c - 'a') as int + 10
  }

  function Escaped(c: char): (d: char) {
    match c
    case 'n' => '\n'
    case 'r' => '\r'
    case 't' => '\t'
    case 'b' => '\U{0008}'
    case 'a' => '\U{0007}'
    case _ => c
  }

  /** A C string ends at a null. */
  predicate Over(s: string) {
    s == "" || s[0] == '\0'
  }

  datatype Mode = Between | Inside | Quoted | Single

  /** The words that are left in a line, in the middle of the current word. */
  function Split(s: string, mode: Mode, current: string): (words: Option<seq<string>>)
    decreases |s|, if mode == Between then 2 else 1
  {
    match mode
    case Between =>
      if Over(s) then Some([]) else if Blank(s[0]) then Split(s[1..], Between, "") else Split(s, Inside, "")
    case Inside =>
      if Over(s) then Some([current])
      else if s[0] in [' ', '\n', '\r', '\t'] then Then(current, Split(s[1..], Between, ""))
      else if s[0] == '"' then Split(s[1..], Quoted, current)
      else if s[0] == '\'' then Split(s[1..], Single, current)
      else Split(s[1..], Inside, current + [s[0]])
    case Quoted =>
      if Over(s) then None
      else if |s| >= 4 && s[0] == '\\' && s[1] == 'x' && Hex(s[2]) && Hex(s[3]) then
        Split(s[4..], Quoted, current + [(HexValue(s[2]) * 16 + HexValue(s[3])) as char])
      else if |s| >= 2 && s[0] == '\\' && s[1] != '\0' then Split(s[2..], Quoted, current + [Escaped(s[1])])
      else if s[0] == '"' then Close(s, current)
      else Split(s[1..], Quoted, current + [s[0]])
    case Single =>
      if Over(s) then None
      else if |s| >= 2 && s[0] == '\\' && s[1] == '\'' then Split(s[2..], Single, current + ['\''])
      else if s[0] == '\'' then Close(s, current)
      else Split(s[1..], Single, current + [s[0]])
  }

  /** A closing quote must be followed by a blank or by nothing. */
  function Close(s: string, current: string): (words: Option<seq<string>>)
    requires s != ""
    decreases |s|, 0
  {
    if !Over(s[1..]) && !Blank(s[1]) then None else Then(current, Split(s[1..], Between, ""))
  }

  function Then(word: string, words: Option<seq<string>>): (r: Option<seq<string>>) {
    if words.None? then None else Some([word] + words.value)
  }

  /** sdssplitargs. */
  function SplitArgs(s: string): (words: Option<seq<string>>) {
    Split(s, Between, "")
  }

  // ----- Plain words come back -----

  ghost predicate Plain(s: string) {
    forall i :: 0 <= i < |s| ==> !Special(s[i])
  }

  /** A rule starts with a sign, so no blank precedes it. */
  ghost predicate Signed(rule: string) {
    rule != "" && rule[0] in ['+', '-']
  }

  lemma {:induction false} InsidePlain(word: string, rest: string, current: string)
    requires Plain(word)
    ensures Split(word + rest, Inside, current) == Split(rest, Inside, current + word)
  {
    if word == "" {
      assert word + rest == rest && current + word == current;
    } else {
      assert (word + rest)[1..] == word[1..] + rest;
      assert !Special(word[0]);
      InsidePlain(word[1..], rest, current + [word[0]]);
      assert current + [word[0]] + word[1..] == current + word;
    }
  }

  /** Plain rules survive joining and splitting. */
  lemma {:induction false} SplitJoin(rules: seq<string>)
    requires forall i :: 0 <= i < |rules| ==> Signed(rules[i]) && Plain(rules[i])
    ensures SplitArgs(Join(rules)) == Some(rules)
  {
    if rules != [] {
      var r, rest := rules[0], if |rules| > 1 then " " + Join(rules[1..]) else "";
      JoinNext(rules);
      InsidePlain(r, rest, "");
      assert "" + r == r;
      assert SplitArgs(Join(rules)) == Split(rest, Inside, r);
      assert rules == [r] + rules[1..];
      if |rules| > 1 {
        assert rest[1..] == Join(rules[1..]) && rest[0] == ' ';
        SplitJoin(rules[1..]);
        assert Split(rest, Inside, r) == Then(r, SplitArgs(Join(rules[1..])));
      } else {
        assert rules[1..] == [] && rest == "";
        assert Split("", Inside, r) == Some([r]);
        assert [r] + [] == [r] == rules;
      }
    }
  }

  // ----- Nothing else does -----

  ghost function Total(words: seq<string>): (n: nat) {
    if words == [] then 0 else |words[0]| + Total(words[1..])
  }

  lemma TotalThen(word: string, words: Option<seq<string>>)
    ensures var r := Then(word, words); r.Some? <==> words.Some?
    ensures var r := Then(word, words); r.Some? ==> Total(r.value) == |word| + Total(words.value)
  {
    if words.Some? {
      assert ([word] + words.value)[1..] == words.value;
    }
  }

  /** The most characters that words can have. */
  ghost function Limit(s: string, mode: Mode, current: string): (n: int) {
    match mode
    case Between => |s|
    case Inside => |s| + |current| - if Plain(s) then 0 else 1
    case Quoted => |s| + |current| - 1
    case Single => |s| + |current| - 1
  }

  ghost predicate Within(words: Option<seq<string>>, n: int) {
    words.Some? ==> Total(words.value) <= n
  }

  /** Splitting only loses characters; a special one is always lost. */
  lemma {:induction false} SplitShrinks(s: string, mode: Mode, current: string)
    ensures Within(Split(s, mode, current), Limit(s, mode, current))
    decreases |s|, if mode == Between then 2 else 1
  {
    if s == "" {
      assert mode == Inside ==> Total([current]) == |current|;
    } else {
      match mode {
        case Between =>
          SplitShrinks(s[1..], Between, "");
          if !Blank(s[0]) {
            SplitShrinks(s, Inside, "");
          }
        case Inside =>
          SplitShrinks(s[1..], Between, "");
          TotalThen(current, Split(s[1..], Between, ""));
          SplitShrinks(s[1..], Quoted, current);
          SplitShrinks(s[1..], Single, current);
          SplitShrinks(s[1..], Inside, current + [s[0]]);
          assert !Special(s[0]) && Plain(s[1..]) ==> Plain(s);
        case Quoted =>
          QuotedShrinks(s, current);
        case Single =>
          SplitShrinks(s[1..], Between, "");
          TotalThen(current, Split(s[1..], Between, ""));
          SplitShrinks(s[1..], Single, current + [s[0]]);
          if |s| >= 2 {
            SplitShrinks(s[2..], Single, current + ['\'']);
          }
      }
    }
  }

  lemma {:induction false} QuotedShrinks(s: string, current: string)
    requires s != ""
    ensures Within(Split(s, Quoted, current), Limit(s, Quoted, current))
    decreases |s|, 0
  {
    SplitShrinks(s[1..], Between, "");
    TotalThen(current, Split(s[1..], Between, ""));
    if |s| >= 4 && s[0] == '\\' && s[1] == 'x' && Hex(s[2]) && Hex(s[3]) {
      SplitShrinks(s[4..], Quoted, current + [(HexValue(s[2]) * 16 + HexValue(s[3])) as char]);
    } else if |s| >= 2 && s[0] == '\\' {
      SplitShrinks(s[2..], Quoted, current + [Escaped(s[1])]);
    } else {
      SplitShrinks(s[1..], Quoted, current + [s[0]]);
    }
  }

  /** A rule is read back as itself exactly when none of its characters is special. */
  lemma SplitIff(rule: string)
    requires Signed(rule)
    ensures SplitArgs(rule) == Some([rule]) <==> Plain(rule)
  {
    if Plain(rule) {
      SplitJoin([rule]);
    } else {
      SplitShrinks(rule, Inside, "");
      assert [rule][1..] == [];
      assert Total([rule]) == |rule|;
    }
  }
}
