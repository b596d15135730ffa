/**
 * Removal of terminal colour codes from a log line: every non-overlapping
 * `ESC [ [0-9;]* m`, found left to right, is deleted in one pass.
 */
module Ansi {
  import opened Text

  const Esc: char := '\U{1B}'

  predicate IsParamChar(c: char) {
    ('0' <= c <= '9') || c == ';'
  }

  /** `x` is exactly one colour code: ESC, `[`, digits and semicolons, `m`. */
  predicate IsColourCode(x: string) {
    |x| >= 3 && x[0] == Esc && x[1] == '[' && x[|x| - 1] == 'm'
    && forall k :: 2 <= k < |x| - 1 ==> IsParamChar(x[k])
  }

  /** The first index at or after `i` that is not a digit or a semicolon. */
  function ParamEnd(s: string, i: nat): (j: nat)
    requires i <= |s|
    ensures i <= j <= |s|
    ensures forall k :: i <= k < j ==> IsParamChar(s[k])
    ensures j < |s| ==> !IsParamChar(s[j])
    decreases |s| - i
  {
    if i < |s| && IsParamChar(s[i]) then ParamEnd(s, i + 1) else i
  }

  /** The length of the colour code that `s` starts with, or 0 when it starts with none.
      Since `m` is not a parameter character, at most one prefix of `s` is a colour code. */
  function CodeLength(s: string): (n: nat)
    ensures n == 0 || (n <= |s| && IsColourCode(s[..n]))
    ensures n == 0 ==> forall m :: 0 < m <= |s| ==> !IsColourCode(s[..m])
  {
    if 2 <= |s| && s[0] == Esc && s[1] == '[' then
      var j := ParamEnd(s, 2);
      if j < |s| && s[j] == 'm' then j + 1
      else
        assert forall m :: 0 < m <= |s| && IsColourCode(s[..m]) ==> m - 1 == j by {
          forall m | 0 < m <= |s| && IsColourCode(s[..m]) ensures m - 1 == j {
            assert s[..m][m - 1] == s[m - 1];
          }
        }
        0
    else 0
  }

  /** `re.sub(r'\x1b\[[0-9;]*m', '', line)`. */
  function StripAnsi(s: string): (r: string)
    ensures |r| <= |s|
    decreases |s|
  {
    if s == [] then []
    else
      var n := CodeLength(s);
      if n > 0 then StripAnsi(s[n..]) else [s[0]] + StripAnsi(s[1..])
  }

  /** A line without an escape character comes out unchanged. */
  lemma {:induction false} StripPlain(s: string)
    requires Esc !in s
    ensures StripAnsi(s) == s
    decreases |s|
  {
    if s != [] {
      StripPlain(s[1..]);
      assert [s[0]] + s[1..] == s;
    }
  }

  /** Text without an escape character passes through and the scan resumes after it. */
  lemma {:induction false} StripPlainPrefix(x: string, rest: string)
    requires Esc !in x
    ensures StripAnsi(x + rest) == x + StripAnsi(rest)
    decreases |x|
  {
    if x == [] {
      assert x + rest == rest;
    } else {
      assert (x + rest)[0] == x[0];
      assert (x + rest)[1..] == x[1..] + rest;
      StripPlainPrefix(x[1..], rest);
      assert [x[0]] + (x[1..] + StripAnsi(rest)) == x + StripAnsi(rest);
    }
  }

  /** A colour code at the front is deleted as a whole. */
  lemma StripCodePrefix(code: string, rest: string)
    requires IsColourCode(code)
    ensures StripAnsi(code + rest) == StripAnsi(rest)
  {
    var s := code + rest;
    assert s[..|code|] == code;
    assert s[|code| - 1] == 'm';
    assert CodeLength(s) == |code|;
    assert s[|code|..] == rest;
  }

  /** A line coloured with one opening and one closing code strips back to its text. */
  lemma StripColoured(open: string, text: string, close: string)
    requires IsColourCode(open) && IsColourCode(close)
    requires Esc !in text
    ensures StripAnsi(open + text + close) == text
  {
    assert open + text + close == open + (text + close);
    StripCodePrefix(open, text + close);
    StripPlainPrefix(text, close);
    StripCodePrefix(close, []);
    assert close + [] == close;
    assert text + [] == text;
  }

  /** Stripping only deletes characters: the result is a subsequence of the line. */
  lemma {:induction false} StripSubsequence(s: string)
    ensures Subsequence(StripAnsi(s), s)
    decreases |s|
  {
    if s != [] {
      var n := CodeLength(s);
      if n > 0 {
        StripSubsequence(s[n..]);
        SubsequencePrepend(StripAnsi(s[n..]), s[..n], s[n..]);
        assert s[..n] + s[n..] == s;
      } else {
        StripSubsequence(s[1..]);
        var r := StripAnsi(s);
        assert r[0] == s[0] && r[1..] == StripAnsi(s[1..]);
      }
    }
  }

  /** One pass only: deleting a code can bring together the pieces of another, which stays. */
  lemma StripSinglePass()
    ensures StripAnsi([Esc, Esc, '[', 'm', '[', 'm']) == [Esc, '[', 'm']
    ensures StripAnsi([Esc, '[', 'm']) == []
  {
    var s := [Esc, Esc, '[', 'm', '[', 'm'];
    assert CodeLength(s) == 0;
    StripCodePrefix(s[1..4], s[4..]);
    assert s[1..] == s[1..4] + s[4..];
    StripPlain(s[4..]);
    StripCodePrefix([Esc, '[', 'm'], []);
    assert [Esc, '[', 'm'] + [] == [Esc, '[', 'm'];
  }
}
