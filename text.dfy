/** The string operations of Rust's standard library that the servers rely on:
    `join`, `split_whitespace`, and a line splitter that undoes `join("\n")`.
    Text is taken to be ASCII, so a character and a byte are the same. */
module Text {

  /** `parts.join(sep)`: the parts with `sep` between neighbours. */
  function Join(parts: seq<string>, sep: string): string
  {
    if |parts| == 0 then ""
    else if |parts| == 1 then parts[0]
    else parts[0] + sep + Join(parts[1..], sep)
  }

  /** The pieces of `s` between occurrences of `sep` (as Rust's `split`):
      always at least one piece, and one more than there are separators. */
  function Split(s: string, sep: char): (pieces: seq<string>)
    ensures |pieces| >= 1
  {
    if |s| == 0 then [""]
    else
      var rest := Split(s[1..], sep);
      if s[0] == sep then [""] + rest
      else [[s[0]] + rest[0]] + rest[1..]
  }

  /** Text without the separator is a single piece. */
  lemma {:induction false} SplitNoSeparator(s: string, sep: char)
    requires forall i :: 0 <= i < |s| ==> s[i] != sep
    ensures Split(s, sep) == [s]
  {
    if |s| > 0 {
      SplitNoSeparator(s[1..], sep);
      assert [s[0]] + s[1..] == s;
    }
  }

  /** Splitting distributes over a separator occurrence. */
  lemma {:induction false} SplitAtSeparator(a: string, b: string, sep: char)
    ensures Split(a + [sep] + b, sep) == Split(a, sep) + Split(b, sep)
  {
    var s := a + [sep] + b;
    if |a| == 0 {
      assert s == [sep] + b && s[1..] == b;
    } else {
      assert s[0] == a[0] && s[1..] == a[1..] + [sep] + b;
      SplitAtSeparator(a[1..], b, sep);
      var restA := Split(a[1..], sep);
      var restS := Split(s[1..], sep);
      assert restS == restA + Split(b, sep);
      if a[0] != sep {
        assert restS[0] == restA[0] && restS[1..] == restA[1..] + Split(b, sep);
      }
    }
  }

  /** `join` with a one-character separator is undone by splitting on it,
      as long as no part contains the separator. */
  lemma {:induction false} SplitJoin(parts: seq<string>, sep: char)
    requires |parts| >= 1
    requires forall k, i :: 0 <= k < |parts| && 0 <= i < |parts[k]| ==> parts[k][i] != sep
    ensures Split(Join(parts, [sep]), sep) == parts
  {
    SplitNoSeparator(parts[0], sep);
    if |parts| > 1 {
      SplitJoin(parts[1..], sep);
      SplitAtSeparator(parts[0], Join(parts[1..], [sep]), sep);
      assert [parts[0]] + parts[1..] == parts;
    }
  }

  /** The characters Rust's `char::is_whitespace` accepts within ASCII:
      space, and tab through carriage return. */
  predicate IsWhitespace(c: char)
  {
    c == ' ' || ('\t' <= c <= '\r')
  }

  /** A token of `split_whitespace`: non-empty, without whitespace. */
  predicate IsWord(w: string)
  {
    |w| > 0 && forall i :: 0 <= i < |w| ==> !IsWhitespace(w[i])
  }

  predicate AllWhitespace(s: string)
  {
    forall i :: 0 <= i < |s| ==> IsWhitespace(s[i])
  }

  /** The length of the run of whitespace that `s` starts with. */
  function WhitespaceLength(s: string): (n: nat)
    ensures n <= |s|
    ensures forall i :: 0 <= i < n ==> IsWhitespace(s[i])
    ensures n == |s| || !IsWhitespace(s[n])
  {
    if |s| > 0 && IsWhitespace(s[0]) then 1 + WhitespaceLength(s[1..]) else 0
  }

  /** The length of the run of non-whitespace that `s` starts with. */
  function TokenLength(s: string): (n: nat)
    ensures n <= |s|
    ensures forall i :: 0 <= i < n ==> !IsWhitespace(s[i])
    ensures n == |s| || IsWhitespace(s[n])
  {
    if |s| > 0 && !IsWhitespace(s[0]) then 1 + TokenLength(s[1..]) else 0
  }

  /** `s.split_whitespace()`: the maximal runs of non-whitespace, in order. */
  function Words(s: string): (ws: seq<string>)
    ensures forall k :: 0 <= k < |ws| ==> IsWord(ws[k])
    ensures ws == [] <==> AllWhitespace(s)
    decreases |s|
  {
    var m := WhitespaceLength(s);
    if m == |s| then []
    else
      var t := s[m..];
      var n := TokenLength(t);
      assert n > 0 && !IsWhitespace(s[m]);
      [t[..n]] + Words(t[n..])
  }

  lemma WordsDropWhitespace(x: string)
    requires |x| > 0 && IsWhitespace(x[0])
    ensures Words(x) == Words(x[1..])
  {
    var y := x[1..];
    var m := WhitespaceLength(x);
    assert m == 1 + WhitespaceLength(y);
    if m < |x| {
      var t := x[m..];
      assert t == y[m - 1..];
      var n := TokenLength(t);
      assert Words(x) == [t[..n]] + Words(t[n..]);
      assert Words(y) == [t[..n]] + Words(t[n..]);
    } else {
      assert Words(x) == [];
      assert Words(y) == [];
    }
  }

  /** Leading whitespace does not change the words. */
  lemma {:induction false} WordsSkipWhitespace(pre: string, s: string)
    requires AllWhitespace(pre)
    ensures Words(pre + s) == Words(s)
  {
    if |pre| > 0 {
      assert (pre + s)[1..] == pre[1..] + s;
      WordsDropWhitespace(pre + s);
      WordsSkipWhitespace(pre[1..], s);
    } else {
      assert pre + s == s;
    }
  }

  lemma {:induction false} TokenLengthOfWord(w: string, rest: string)
    requires forall i :: 0 <= i < |w| ==> !IsWhitespace(w[i])
    requires rest == [] || IsWhitespace(rest[0])
    ensures TokenLength(w + rest) == |w|
  {
    if |w| > 0 {
      assert (w + rest)[1..] == w[1..] + rest;
      TokenLengthOfWord(w[1..], rest);
    } else {
      assert w + rest == rest;
    }
  }

  /** A word followed by whitespace is the first word. */
  lemma WordsOfWordThen(w: string, rest: string)
    requires IsWord(w)
    requires rest == [] || IsWhitespace(rest[0])
    ensures Words(w + rest) == [w] + Words(rest)
  {
    var s := w + rest;
    assert WhitespaceLength(s) == 0;
    assert s[0..] == s;
    TokenLengthOfWord(w, rest);
    assert s[..|w|] == w && s[|w|..] == rest;
  }

  /** Joining words with single spaces is undone by `split_whitespace`. */
  lemma {:induction false} WordsOfJoin(ws: seq<string>)
    requires forall k :: 0 <= k < |ws| ==> IsWord(ws[k])
    ensures Words(Join(ws, " ")) == ws
  {
    if |ws| == 0 {
    } else if |ws| == 1 {
      WordsOfWordThen(ws[0], "");
      assert ws[0] + "" == ws[0];
    } else {
      var tail := Join(ws[1..], " ");
      assert Join(ws, " ") == ws[0] + (" " + tail);
      WordsOfWordThen(ws[0], " " + tail);
      WordsSkipWhitespace(" ", tail);
      WordsOfJoin(ws[1..]);
      assert [ws[0]] + ws[1..] == ws;
    }
  }
}
