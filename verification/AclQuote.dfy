/**
  Quoting, the inverse of splitting: a line of quoted words is split into exactly these
  words, whatever bytes they hold.
*/
module AclQuote {
  import opened Common
  import opened AclSplit

  /** Words are byte strings. */
  ghost predicate Bytes(s: string) {
    forall i :: 0 <= i < |s| ==> s[i] as int < 256
  }

  function HexDigit(n: nat): (c: char)
    requires n < 16
    ensures Hex(c) && HexValue(c) == n
  {
    if n < 10 then '0' + n as char else 'a' + (n - 10) as char
  }

  /** isprint in the C locale. */
  predicate Printable(c: char) {
    ' ' <= c <= '~'
  }

  function QuoteChar(c: char): (s: string)
    requires c as int < 256
  {
    match c
    case '\\' => ['\\', '\\']
    case '"' => ['\\', '"']
    case '\n' => ['\\', 'n']
    case '\r' => ['\\', 'r']
    case '\t' => ['\\', 't']
    case '\U{0007}' => ['\\', 'a']
    case '\U{0008}' => ['\\', 'b']
    case _ => if Printable(c) then [c] else ['\\', 'x', HexDigit(c as int / 16), HexDigit(c as int % 16)]
  }

  function QuoteChars(word: string): (s: string)
    requires Bytes(word)
  {
    if word == "" then "" else QuoteChars(word[..|word| - 1]) + QuoteChar(word[|word| - 1])
  }

  function Quote(word: string): (s: string)
    requires Bytes(word)
  {
    "\"" + QuoteChars(word) + "\""
  }

  /** sdscatrepr. */
  method CatRepr(s: string, word: string) returns (r: string)
    requires Bytes(word)
    ensures r == s + Quote(word)
  {
    hide QuoteChar, QuoteChars, Bytes;
    r := s + "\"";
    QuoteNothing(word);
    for i := 0 to |word|
      invariant Bytes(word[..i]) && r == (s + "\"") + QuoteChars(word[..i])
    {
      QuoteNext(word, i);
      r := r + QuoteChar(word[i]);
    }
    assert word[..|word|] == word;
    r := r + "\"";
  }

  lemma QuoteNothing(word: string)
    ensures Bytes(word[..0]) && QuoteChars(word[..0]) == ""
  {
  }

  lemma QuoteNext(word: string, i: nat)
    requires Bytes(word) && i < |word| && Bytes(word[..i])
    ensures word[i] as int < 256 && Bytes(word[..i + 1])
    ensures QuoteChars(word[..i + 1]) == QuoteChars(word[..i]) + QuoteChar(word[i])
  {
    hide QuoteChar;
    assert word[..i + 1][..i] == word[..i];
  }

  // ----- Quoted words come back -----

  lemma HexPair(c: char, rest: string, current: string)
    requires c as int < 256
    ensures Split(['\\', 'x', HexDigit(c as int / 16), HexDigit(c as int % 16)] + rest, Quoted, current)
         == Split(rest, Quoted, current + [c])
  {
    var s := ['\\', 'x', HexDigit(c as int / 16), HexDigit(c as int % 16)] + rest;
    assert s[4..] == rest;
    assert (HexValue(s[2]) * 16 + HexValue(s[3])) as char == c;
  }

  lemma EscapePair(c: char, d: char, rest: string, current: string)
    requires c != 'x' && c != '\0' && Escaped(c) == d
    ensures Split(['\\', c] + rest, Quoted, current) == Split(rest, Quoted, current + [d])
  {
    var s := ['\\', c] + rest;
    assert s[2..] == rest && s[1] == c;
  }

  lemma QuotedChar(c: char, rest: string, current: string)
    requires c as int < 256
    ensures Split(QuoteChar(c) + rest, Quoted, current) == Split(rest, Quoted, current + [c])
  {
    match c
    case '\\' => EscapePair('\\', '\\', rest, current);
    case '"' => EscapePair('"', '"', rest, current);
    case '\n' => EscapePair('n', '\n', rest, current);
    case '\r' => EscapePair('r', '\r', rest, current);
    case '\t' => EscapePair('t', '\t', rest, current);
    case '\U{0007}' => EscapePair('a', '\U{0007}', rest, current);
    case '\U{0008}' => EscapePair('b', '\U{0008}', rest, current);
    case _ =>
      if Printable(c) {
        var s := [c] + rest;
        assert s[1..] == rest && s[0] == c;
      } else {
        HexPair(c, rest, current);
      }
  }

  lemma {:induction false} QuotedChars(word: string, rest: string, current: string)
    requires Bytes(word)
    ensures Split(QuoteChars(word) + rest, Quoted, current) == Split(rest, Quoted, current + word)
  {
    hide Split, QuoteChar;
    if word == "" {
      assert QuoteChars(word) + rest == rest && current + word == current;
    } else {
      var front, c := word[..|word| - 1], word[|word| - 1];
      assert QuoteChars(word) + rest == QuoteChars(front) + (QuoteChar(c) + rest);
      QuotedChars(front, QuoteChar(c) + rest, current);
      QuotedChar(c, rest, current + front);
      assert current + front + [c] == current + word;
    }
  }

  lemma QuotedWord(word: string, rest: string)
    requires Bytes(word) && (rest == "" || rest[0] == ' ')
    ensures SplitArgs(Quote(word) + rest) == Then(word, SplitArgs(rest))
  {
    hide QuoteChars;
    var s, tail := Quote(word) + rest, "\"" + rest;
    assert s[0] == '"' && s[1..] == QuoteChars(word) + tail;
    assert Split(s, Between, "") == Split(s, Inside, "") == Split(s[1..], Quoted, "");
    QuotedChars(word, tail, "");
    assert tail[0] == '"' && tail[1..] == rest && "" + word == word;
    assert Split(tail, Quoted, word) == Close(tail, word);
  }

  /** A line of quoted words. */
  function QuoteAll(words: seq<string>): (line: string)
    requires forall i :: 0 <= i < |words| ==> Bytes(words[i])
  {
    if words == [] then "" else Quote(words[0]) + (if |words| == 1 then "" else " " + QuoteAll(words[1..]))
  }

  /** Splitting undoes quoting: any words of any bytes, empty ones and such with blanks, quotes and nulls included. */
  lemma {:induction false} SplitQuoted(words: seq<string>)
    requires forall i :: 0 <= i < |words| ==> Bytes(words[i])
    ensures SplitArgs(QuoteAll(words)) == Some(words)
  {
    hide Quote, Split;
    if words == [] {
      NothingToSplit();
    } else {
      var rest := if |words| == 1 then "" else " " + QuoteAll(words[1..]);
      QuotedWord(words[0], rest);
      if |words| == 1 {
        NothingToSplit();
        assert words == [words[0]] + [];
      } else {
        SplitQuoted(words[1..]);
        SkipBlank(QuoteAll(words[1..]));
        assert words == [words[0]] + words[1..];
      }
    }
  }

  lemma NothingToSplit()
    ensures SplitArgs("") == Some([])
  {
  }

  lemma SkipBlank(line: string)
    ensures SplitArgs(" " + line) == SplitArgs(line)
  {
    assert (" " + line)[1..] == line;
  }
}
