/** The conventional optional value. */
module Wrappers {
  datatype Option<+T> = None | Some(value: T)
}

/**
 * Character classes and the handful of Python string operations the
 * log summariser relies on: `in` on strings, `str.lower()`, `str.strip()`
 * and `str.split('\n')`.
 */
module Text {

  function Min(a: int, b: int): int { if a <= b then a else b }

  /** Python's `str.isspace()`, which is also what `\s` and `str.strip()` use. */
  predicate IsSpace(c: char) {
    var n := c as int;
    (9 <= n <= 13) || (28 <= n <= 32) || n == 0x85 || n == 0xA0 || n == 0x1680
    || (0x2000 <= n <= 0x200A) || n == 0x2028 || n == 0x2029 || n == 0x202F
    || n == 0x205F || n == 0x3000
  }

  /** The regular-expression class `\w`, restricted to ASCII. */
  predicate IsWordChar(c: char) {
    ('a' <= c <= 'z') || ('A' <= c <= 'Z') || ('0' <= c <= '9') || c == '_'
  }

  /** `str.lower()`, restricted to ASCII letters. */
  function LowerChar(c: char): char {
    if 'A' <= c <= 'Z' then (c as int + 32) as char else c
  }

  function Lower(s: string): (r: string)
    ensures |r| == |s|
    ensures forall i :: 0 <= i < |s| ==> r[i] == LowerChar(s[i])
  {
    seq(|s|, i requires 0 <= i < |s| => LowerChar(s[i]))
  }

  /** `pat` occurs in `s` starting at index `i`. */
  predicate OccursAt(s: string, pat: string, i: int) {
    0 <= i && i + |pat| <= |s| && s[i..i + |pat|] == pat
  }

  /** Python's `pat in s`. */
  function Contains(s: string, pat: string): (b: bool)
    ensures b <==> exists i :: OccursAt(s, pat, i)
  {
    ContainsFrom(s, pat, 0)
  }

  function ContainsFrom(s: string, pat: string, from: nat): (b: bool)
    ensures b <==> exists i :: from <= i && OccursAt(s, pat, i)
    decreases |s| - from
  {
    if from + |pat| > |s| then false
    else if s[from..from + |pat|] == pat then
      assert OccursAt(s, pat, from);
      true
    else
      var b := ContainsFrom(s, pat, from + 1);
      assert !OccursAt(s, pat, from);
      b
  }

  /** Python's `str.strip()` with no argument: both ends lose their whitespace. */
  function Strip(s: string): (r: string)
    ensures r == [] || (!IsSpace(r[0]) && !IsSpace(r[|r| - 1]))
    ensures exists i :: OccursAt(s, r, i)
    ensures (s == [] || (!IsSpace(s[0]) && !IsSpace(s[|s| - 1]))) ==> r == s
  {
    var i := SpaceSkip(s, 0);
    var j := SpaceBack(s, i, |s|);
    assert OccursAt(s, s[i..j], i);
    s[i..j]
  }

  /** The first index at or after `i` that does not hold whitespace. */
  function SpaceSkip(s: string, i: nat): (j: nat)
    requires i <= |s|
    ensures i <= j <= |s|
    ensures forall k :: i <= k < j ==> IsSpace(s[k])
    ensures j < |s| ==> !IsSpace(s[j])
    decreases |s| - i
  {
    if i < |s| && IsSpace(s[i]) then SpaceSkip(s, i + 1) else i
  }

  /** The end of `s[lo..hi]` once its trailing whitespace is removed. */
  function SpaceBack(s: string, lo: nat, hi: nat): (j: nat)
    requires lo <= hi <= |s|
    ensures lo <= j <= hi
    ensures forall k :: j <= k < hi ==> IsSpace(s[k])
    ensures j > lo ==> !IsSpace(s[j - 1])
    decreases hi
  {
    if hi > lo && IsSpace(s[hi - 1]) then SpaceBack(s, lo, hi - 1) else hi
  }

  /** `pat` cannot occur in `s` when one of its characters is missing from `s`. */
  lemma Absent(s: string, pat: string, j: nat)
    requires j < |pat| && pat[j] !in s
    ensures !Contains(s, pat)
  {
    forall i | 0 <= i && i + |pat| <= |s| ensures !OccursAt(s, pat, i) {
      assert s[i..i + |pat|][j] == s[i + j];
    }
  }

  /** `pat` cannot occur in `s` when its first character is missing from every place it would fit. */
  lemma NoStart(s: string, pat: string)
    requires pat != []
    requires forall k :: 0 <= k <= |s| - |pat| ==> s[k] != pat[0]
    ensures !Contains(s, pat)
  {
    forall i | 0 <= i && i + |pat| <= |s| ensures !OccursAt(s, pat, i) {
      assert s[i..i + |pat|][0] == s[i];
    }
  }

  /** Lower-casing leaves a string without upper-case ASCII letters as it is. */
  lemma LowerUnchanged(s: string)
    requires forall k :: 0 <= k < |s| ==> !('A' <= s[k] <= 'Z')
    ensures Lower(s) == s
  {
  }

  /** Lower-casing leaves no upper-case ASCII letter, keeps every other character, and a
      second lower-casing changes nothing. */
  lemma LowerIdempotent(s: string)
    ensures forall i :: 0 <= i < |s| ==> !('A' <= Lower(s)[i] <= 'Z')
    ensures forall i :: 0 <= i < |s| && !('A' <= s[i] <= 'Z') ==> Lower(s)[i] == s[i]
    ensures Lower(Lower(s)) == Lower(s)
  {
    LowerUnchanged(Lower(s));
  }

  /** `Strip` removes exactly the whitespace before `i` and from `j` on. */
  lemma StripExact(s: string, i: nat, j: nat)
    requires i < j <= |s|
    requires forall k :: 0 <= k < i ==> IsSpace(s[k])
    requires forall k :: j <= k < |s| ==> IsSpace(s[k])
    requires !IsSpace(s[i]) && !IsSpace(s[j - 1])
    ensures Strip(s) == s[i..j]
  {
    var a := SpaceSkip(s, 0);
    assert a == i;
    var b := SpaceBack(s, a, |s|);
    assert b == j;
  }

  /** The number of newline characters in `s`. */
  function Newlines(s: string): nat {
    if s == [] then 0 else (if s[0] == '\n' then 1 else 0) + Newlines(s[1..])
  }

  /** The index of the first newline in `s`, or `|s|` when there is none. */
  function NewlineIndex(s: string): (k: nat)
    ensures k <= |s|
    ensures forall j :: 0 <= j < k ==> s[j] != '\n'
    ensures k < |s| ==> s[k] == '\n'
  {
    if s == [] || s[0] == '\n' then 0 else 1 + NewlineIndex(s[1..])
  }

  /** Python's `s.split('\n')`: never empty, even for the empty string. */
  function SplitLines(s: string): (lines: seq<string>)
    ensures |lines| >= 1
    decreases |s|
  {
    var k := NewlineIndex(s);
    if k == |s| then [s] else [s[..k]] + SplitLines(s[k + 1..])
  }

  /** Python's `'\n'.join(lines)`. */
  function JoinLines(lines: seq<string>): string
    requires |lines| >= 1
  {
    if |lines| == 1 then lines[0] else lines[0] + "\n" + JoinLines(lines[1..])
  }

  predicate NoNewline(s: string) {
    forall j :: 0 <= j < |s| ==> s[j] != '\n'
  }

  lemma NewlinesAppend(a: string, b: string)
    ensures Newlines(a + b) == Newlines(a) + Newlines(b)
  {
    if a != [] {
      assert (a + b)[0] == a[0];
      assert (a + b)[1..] == a[1..] + b;
      NewlinesAppend(a[1..], b);
    } else {
      assert a + b == b;
    }
  }

  lemma NoNewlineCount(s: string)
    requires NoNewline(s)
    ensures Newlines(s) == 0
  {
    if s != [] {
      NoNewlineCount(s[1..]);
    }
  }

  /** Splitting yields one piece more than there are newlines. */
  lemma {:induction false} SplitLinesCount(s: string)
    ensures |SplitLines(s)| == Newlines(s) + 1
    decreases |s|
  {
    var k := NewlineIndex(s);
    if k == |s| {
      assert NoNewline(s);
      NoNewlineCount(s);
    } else {
      var rest := s[k + 1..];
      SplitLinesCount(rest);
      assert s == s[..k] + ("\n" + rest);
      assert NoNewline(s[..k]);
      NoNewlineCount(s[..k]);
      NewlinesAppend(s[..k], "\n" + rest);
      NewlinesAppend("\n", rest);
    }
  }

  /** No piece of a split holds a newline. */
  lemma {:induction false} SplitLinesPieces(s: string)
    ensures forall i :: 0 <= i < |SplitLines(s)| ==> NoNewline(SplitLines(s)[i])
    decreases |s|
  {
    var k := NewlineIndex(s);
    if k < |s| {
      SplitLinesPieces(s[k + 1..]);
      assert SplitLines(s) == [s[..k]] + SplitLines(s[k + 1..]);
    }
  }

  /** Joining the pieces of a split gives the text back. */
  lemma {:induction false} SplitThenJoin(s: string)
    ensures JoinLines(SplitLines(s)) == s
    decreases |s|
  {
    var k := NewlineIndex(s);
    if k < |s| {
      var rest := s[k + 1..];
      SplitThenJoin(rest);
      var lines := SplitLines(s);
      assert lines[0] == s[..k] && lines[1..] == SplitLines(rest);
      assert s == s[..k] + "\n" + rest;
    }
  }

  /** Joining newline-free pieces and splitting again gives back the same pieces. */
  lemma {:induction false} JoinThenSplit(lines: seq<string>)
    requires |lines| >= 1
    requires forall i :: 0 <= i < |lines| ==> NoNewline(lines[i])
    ensures SplitLines(JoinLines(lines)) == lines
  {
    var s := JoinLines(lines);
    var head := lines[0];
    if |lines| == 1 {
      NoNewlineIndex(head, "");
      assert head + "" == head;
    } else {
      var tail := JoinLines(lines[1..]);
      assert s == head + ("\n" + tail);
      NoNewlineIndex(head, "\n" + tail);
      assert s[..|head|] == head;
      assert s[|head| + 1..] == tail;
      JoinThenSplit(lines[1..]);
    }
  }

  lemma NoNewlineIndex(a: string, b: string)
    requires NoNewline(a)
    requires b == [] || b[0] == '\n'
    ensures NewlineIndex(a + b) == |a|
  {
    if a != [] {
      assert (a + b)[1..] == a[1..] + b;
      NoNewlineIndex(a[1..], b);
    }
  }

  lemma AppendAssoc<T>(a: seq<T>, b: seq<T>, c: seq<T>)
    ensures a + b + c == a + (b + c)
  {
  }

  /** `a` can be obtained from `b` by deleting elements. */
  predicate Subsequence<T(==)>(a: seq<T>, b: seq<T>)
    decreases |b|
  {
    a == [] || (b != [] && ((a[0] == b[0] && Subsequence(a[1..], b[1..])) || Subsequence(a, b[1..])))
  }

  lemma SubsequencePrepend<T>(a: seq<T>, pre: seq<T>, b: seq<T>)
    requires Subsequence(a, b)
    ensures Subsequence(a, pre + b)
    decreases |pre|
  {
    if pre != [] && a != [] {
      SubsequencePrepend(a, pre[1..], b);
      assert (pre + b)[1..] == pre[1..] + b;
      assert Subsequence(a, (pre + b)[1..]);
    } else if pre == [] {
      assert pre + b == b;
    }
  }
}
