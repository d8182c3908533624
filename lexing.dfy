/**
 * The parts of Rust's `str` API that the output parsers use: `contains`,
 * `lines`, `split_whitespace` and `parse::<i64>`. A string is a sequence of
 * Unicode scalar values, as a Rust `&str` is once decoded.
 */
module Lexing {
  import opened Wrappers
  import opened Words
  import opened Text

  // ---------------------------------------------------------------------
  // contains

  /** `pat` occurs in `s` starting at position `i`. */
  predicate OccursAt(s: string, pat: string, i: nat) {
    i + |pat| <= |s| && s[i..i + |pat|] == pat
  }

  /** `s.contains(pat)`: `pat` occurs at some position of `s`. */
  predicate Contains(s: string, pat: string) {
    exists i: nat :: i <= |s| && OccursAt(s, pat, i)
  }

  /** Every string contains itself. */
  lemma ContainsSelf(s: string)
    ensures Contains(s, s)
  {
    assert OccursAt(s, s, 0);
  }

  /** A pattern found at the front of a string is found in it. */
  lemma ContainsPrefix(s: string, pat: string, rest: string)
    requires s == pat + rest
    ensures Contains(s, pat)
  {
    assert OccursAt(s, pat, 0);
  }

  /** Text added in front of a string does not hide what it contains. */
  lemma ContainsAfter(a: string, b: string, pat: string)
    requires Contains(b, pat)
    ensures Contains(a + b, pat)
  {
    var i: nat :| i <= |b| && OccursAt(b, pat, i);
    assert (a + b)[|a| + i..|a| + i + |pat|] == b[i..i + |pat|];
    assert OccursAt(a + b, pat, |a| + i);
  }

  /** Text added after a string does not hide what it contains. */
  lemma ContainsBefore(a: string, b: string, pat: string)
    requires Contains(a, pat)
    ensures Contains(a + b, pat)
  {
    var i: nat :| i <= |a| && OccursAt(a, pat, i);
    assert (a + b)[i..i + |pat|] == a[i..i + |pat|];
    assert OccursAt(a + b, pat, i);
  }

  /** A string lacking one of the pattern's characters does not contain the pattern. */
  lemma MissingChar(s: string, pat: string, c: char)
    requires c in pat && c !in s
    ensures !Contains(s, pat)
  {
    var k :| 0 <= k < |pat| && pat[k] == c;
  }

  // ---------------------------------------------------------------------
  // lines

  /** The position of the first `c` in `s`, or `|s|` when there is none. */
  function IndexOf(s: string, c: char): (i: nat)
    ensures i <= |s| && (i < |s| ==> s[i] == c)
    ensures forall j :: 0 <= j < i ==> s[j] != c
  {
    if s == [] then 0 else if s[0] == c then 0 else 1 + IndexOf(s[1..], c)
  }

  /** A line ended by `\n` loses one `\r` in front of it. */
  function StripCarriageReturn(line: string): string {
    if line != [] && line[|line| - 1] == '\r' then line[..|line| - 1] else line
  }

  /**
   * `s.lines()`: the pieces between `\n` characters, each losing a `\r` that
   * stands just before its `\n`; a final `\n` does not start another line,
   * and the empty string has no lines.
   */
  function Lines(s: string): seq<string>
    decreases |s|
  {
    if s == [] then []
    else
      var i := IndexOf(s, '\n');
      if i == |s| then [s] else [StripCarriageReturn(s[..i])] + Lines(s[i + 1..])
  }

  /** No line holds a `\n`. */
  lemma {:induction false} LinesHaveNoNewline(s: string)
    ensures forall k :: 0 <= k < |Lines(s)| ==> '\n' !in Lines(s)[k]
    decreases |s|
  {
    if s != [] {
      var i := IndexOf(s, '\n');
      if i < |s| {
        LinesHaveNoNewline(s[i + 1..]);
        assert '\n' !in s[..i];
      }
    }
  }

  /** A line `println!` can write as it is: no `\n` inside and no `\r` at its end. */
  predicate PlainLine(line: string) {
    '\n' !in line && (line == [] || line[|line| - 1] != '\r')
  }

  /** What a sequence of `println!` calls writes: every line followed by `\n`. */
  function JoinLines(lines: seq<string>): string {
    if lines == [] then [] else lines[0] + "\n" + JoinLines(lines[1..])
  }

  /** Printed lines are read back one for one. */
  lemma {:induction false} LinesOfJoinLines(lines: seq<string>)
    requires forall k :: 0 <= k < |lines| ==> PlainLine(lines[k])
    ensures Lines(JoinLines(lines)) == lines
  {
    if lines != [] {
      var line, rest := lines[0], JoinLines(lines[1..]);
      var s := JoinLines(lines);
      assert s == line + "\n" + rest;
      IndexOfFirst(line, rest, '\n');
      assert s[..|line|] == line;
      assert s[|line| + 1..] == rest;
      LinesOfJoinLines(lines[1..]);
    }
  }

  lemma IndexOfFirst(a: string, b: string, c: char)
    requires c !in a
    ensures IndexOf(a + [c] + b, c) == |a|
  {
    var s := a + [c] + b;
    assert s[|a|] == c;
  }

  // ---------------------------------------------------------------------
  // split_whitespace

  /** Unicode's White_Space property, on which `split_whitespace` splits. */
  predicate IsWhitespace(c: char) {
    var n := c as int;
    (0x09 <= n <= 0x0D) || n == 0x20 || n == 0x85 || n == 0xA0 || n == 0x1680
    || (0x2000 <= n <= 0x200A) || n == 0x2028 || n == 0x2029 || n == 0x202F || n == 0x205F || n == 0x3000
  }

  /** A non-empty run of characters none of which is whitespace. */
  predicate IsWord(w: string) {
    w != [] && forall i :: 0 <= i < |w| ==> !IsWhitespace(w[i])
  }

  /** Two words written together make one word. */
  lemma WordConcat(a: string, b: string)
    requires IsWord(a) && IsWord(b)
    ensures IsWord(a + b)
  {
    assert forall i :: 0 <= i < |a + b| ==> (a + b)[i] == if i < |a| then a[i] else b[i - |a|];
  }

  /** The length of the run of non-whitespace characters at the front of `s`. */
  function WordLength(s: string): (n: nat)
    ensures n <= |s| && (n < |s| ==> IsWhitespace(s[n]))
    ensures forall j :: 0 <= j < n ==> !IsWhitespace(s[j])
  {
    if s == [] || IsWhitespace(s[0]) then 0 else 1 + WordLength(s[1..])
  }

  /** `s.split_whitespace()`: the maximal runs of non-whitespace characters, in order. */
  function Tokens(s: string): seq<string>
    decreases |s|
  {
    if s == [] then []
    else if IsWhitespace(s[0]) then Tokens(s[1..])
    else
      var n := WordLength(s);
      [s[..n]] + Tokens(s[n..])
  }

  /** Every token is a word: non-empty and free of whitespace. */
  lemma {:induction false} TokensAreWords(s: string)
    ensures forall k :: 0 <= k < |Tokens(s)| ==> IsWord(Tokens(s)[k])
    decreases |s|
  {
    if s != [] {
      if IsWhitespace(s[0]) {
        TokensAreWords(s[1..]);
      } else {
        TokensAreWords(s[WordLength(s)..]);
      }
    }
  }

  /** Words joined by single spaces. */
  function Unwords(words: seq<string>): string {
    if words == [] then []
    else if |words| == 1 then words[0]
    else words[0] + (" " + Unwords(words[1..]))
  }

  /** Two word lists joined by spaces are the first list's text, a space, and the second's. */
  lemma {:induction false} UnwordsAppend(a: seq<string>, b: seq<string>)
    requires a != [] && b != []
    ensures Unwords(a + b) == Unwords(a) + (" " + Unwords(b))
  {
    if |a| == 1 {
      assert (a + b)[1..] == b;
    } else {
      assert (a + b)[1..] == a[1..] + b;
      UnwordsAppend(a[1..], b);
    }
  }

  /** Splitting words joined by spaces gives back the words. */
  lemma {:induction false} TokensOfUnwords(words: seq<string>)
    requires forall k :: 0 <= k < |words| ==> IsWord(words[k])
    ensures Tokens(Unwords(words)) == words
  {
    if |words| == 1 {
      TokensSingle(words[0]);
    } else if |words| > 1 {
      var rest := Unwords(words[1..]);
      TokensCons(words[0], rest);
      TokensOfUnwords(words[1..]);
    }
  }

  /** A word followed by a space and more text is the first token of it. */
  lemma TokensCons(w: string, rest: string)
    requires IsWord(w)
    ensures Tokens(w + (" " + rest)) == [w] + Tokens(rest)
  {
    TokensOfWord(w, " " + rest);
    TokensAfterSpaces(" ", rest);
  }

  /** A word on its own is its only token. */
  lemma TokensSingle(w: string)
    requires IsWord(w)
    ensures Tokens(w) == [w]
  {
    TokensOfWord(w, []);
    assert w + [] == w;
  }

  /** A word followed by nothing or by whitespace is the first token. */
  lemma TokensOfWord(w: string, rest: string)
    requires IsWord(w) && (rest == [] || IsWhitespace(rest[0]))
    ensures Tokens(w + rest) == [w] + Tokens(rest)
  {
    var s := w + rest;
    assert forall j :: 0 <= j < |w| ==> s[j] == w[j] && !IsWhitespace(s[j]);
    assert rest != [] ==> s[|w|] == rest[0];
    var n := WordLength(s);
    assert n == |w|;
    assert s[..n] == w && s[n..] == rest;
  }

  /** Leading whitespace is skipped. */
  lemma {:induction false} TokensAfterSpaces(spaces: string, s: string)
    requires forall i :: 0 <= i < |spaces| ==> IsWhitespace(spaces[i])
    ensures Tokens(spaces + s) == Tokens(s)
  {
    if spaces == [] {
      assert spaces + s == s;
    } else {
      assert (spaces + s)[1..] == spaces[1..] + s;
      TokensAfterSpaces(spaces[1..], s);
    }
  }

  // ---------------------------------------------------------------------
  // parse::<i64>

  /** The digits after an optional leading `+` or `-`. */
  function Unsigned(s: string): string {
    if s != [] && (s[0] == '-' || s[0] == '+') then s[1..] else s
  }

  /** The value of a sign and digits, the sign negating it when it is `-`. */
  function SignedValue(s: string): int
    requires AllDigits(Unsigned(s))
  {
    var magnitude: int := DigitsValue(Unsigned(s));
    if s != [] && s[0] == '-' then -magnitude else magnitude
  }

  /**
   * `s.parse::<i64>()`: an optional `+` or `-`, then one or more ASCII
   * digits whose signed value lies in the range of `i64`; anything else,
   * whitespace included, is an error.
   */
  function ParseI64(s: string): (r: Option<i64>)
    ensures r.Some? <==> Unsigned(s) != [] && AllDigits(Unsigned(s)) && I64_MIN <= SignedValue(s) < I64_LIMIT
    ensures r.Some? ==> r.value == SignedValue(s)
  {
    var digits := Unsigned(s);
    if digits == [] || !AllDigits(digits) then None
    else
      var value := SignedValue(s);
      if I64_MIN <= value < I64_LIMIT then Some(value) else None
  }

  /** `format!("{}", i)` parses back to `i`. */
  lemma ParseFormatted(i: i64)
    ensures ParseI64(IntToString(i)) == Some(i)
  {
    var s := IntToString(i);
    if i < 0 {
      var magnitude: nat := -(i as int);
      assert Unsigned(s) == NatToString(magnitude);
      DigitsValueOfNatToString(magnitude);
    } else {
      assert IsDigit(s[0]);
      DigitsValueOfNatToString(i);
    }
  }

  /** A formatted number is one token. */
  lemma FormattedIsWord(i: int)
    ensures IsWord(IntToString(i))
  {
    var s := IntToString(i);
    if i < 0 {
      assert forall k :: 1 <= k < |s| ==> IsDigit(s[k]) by {
        assert s[1..] == NatToString(-i);
      }
    }
  }
}
