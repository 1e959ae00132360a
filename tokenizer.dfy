/** The word-at-cursor tokenizer of the hover server (`find_word_at_pos` and
    the slice its caller takes). Lines are ASCII, so the character indices it
    computes are also byte offsets. */
module Tokenizer {

  /** `c.is_alphanumeric() || c == '_'`, within ASCII. */
  predicate IsIdentChar(c: char)
  {
    ('a' <= c <= 'z') || ('A' <= c <= 'Z') || ('0' <= c <= '9') || c == '_'
  }

  /** The line with the sentinel space appended (`format!("{} ", line)`),
      so that a non-identifier always follows the last character. */
  function WithSentinel(line: string): (s: string)
    ensures |s| == |line| + 1 && s[..|line|] == line && !IsIdentChar(s[|line|])
  {
    line + " "
  }

  /** The backward scan: one past the last non-identifier among `s[..k]`,
      or 0 when all of them are identifier characters. */
  function ScanBack(s: string, k: nat): (start: nat)
    requires k <= |s|
    ensures start <= k
    ensures forall i :: start <= i < k ==> IsIdentChar(s[i])
    ensures start == 0 || !IsIdentChar(s[start - 1])
  {
    if k == 0 then 0
    else if !IsIdentChar(s[k - 1]) then k
    else ScanBack(s, k - 1)
  }

  /** The forward scan: the index of the first non-identifier of `s` at or
      after `i`, or `fallback` when there is none. */
  function ScanForward(s: string, i: nat, fallback: nat): (end: nat)
    ensures || (i <= end < |s| && !IsIdentChar(s[end]) && forall j :: i <= j < end ==> IsIdentChar(s[j]))
            || (end == fallback && forall j :: i <= j < |s| ==> IsIdentChar(s[j]))
    decreases |s| - i
  {
    if i >= |s| then fallback
    else if !IsIdentChar(s[i]) then i
    else ScanForward(s, i + 1, fallback)
  }

  /** `find_word_at_pos(line, col)`: the half-open span of the identifier
      around `col`. It never fails; past the end of the line it yields the
      span from just after the sentinel to `col`. */
  function FindWordAtPos(line: string, col: nat): (span: (nat, nat))
    ensures span.0 <= col <= span.1
    ensures span.0 <= |line| + 1
    ensures span.0 == 0 || !IsIdentChar(WithSentinel(line)[span.0 - 1])
    ensures col <= |line| ==> span.1 <= |line| && !IsIdentChar(WithSentinel(line)[span.1])
    ensures col <= |line| ==> forall i :: span.0 <= i < span.1 ==> IsIdentChar(line[i])
    ensures col > |line| ==> span == (|line| + 1, col)
  {
    var s := WithSentinel(line);
    var start := ScanBack(s, if col < |s| then col else |s|);
    var end := ScanForward(s, col, col);
    (start, end)
  }

  /** The span a cursor at `col` of `line` designates when it lies within
      the line: the maximal run of identifier characters that contains
      `col`, or ends at it. */
  predicate IsWordSpan(line: string, col: nat, a: nat, b: nat)
  {
    var s := WithSentinel(line);
    && a <= col <= b <= |line|
    && (forall i :: a <= i < b ==> IsIdentChar(s[i]))
    && (a == 0 || !IsIdentChar(s[a - 1]))
    && !IsIdentChar(s[b])
  }

  /** Within the line, the span is the only one with the properties above. */
  lemma WordSpanIsUnique(line: string, col: nat, a: nat, b: nat)
    requires IsWordSpan(line, col, a, b)
    ensures FindWordAtPos(line, col) == (a, b)
  {
  }

  /** `line_conts[start..end]` in `get_word_at_cursor_from_file`. The slice
      panics when the span runs past the line, which happens exactly when
      the column is past the line. */
  function WordAtColumn(line: string, col: nat): (word: string)
    requires col <= |line|
    ensures exists a: nat, b: nat {:trigger IsWordSpan(line, col, a, b)} :: IsWordSpan(line, col, a, b) && word == line[a..b]
  {
    var (start, end) := FindWordAtPos(line, col);
    assert IsWordSpan(line, col, start, end);
    line[start..end]
  }
}
