/**
 * The line classifier of the summary generator: each line of the log, once its
 * colour codes are gone, is tested against four independent rules, and the
 * trimmed line joins every category whose rule holds.
 */
module Classifier {
  import opened Text
  import opened Ansi

  /** The check-mark and cross-mark glyphs used as markers. */
  const Tick: char := '\U{2713}'
  const Cross: char := '\U{2717}'

  datatype Kind = Passed | Failed | Warning | Error

  predicate IsPassedLine(c: string) {
    Contains(c, "[PASS]") || Contains(c, "[SUCCESS]") || Contains(c, [Tick])
  }

  predicate IsFailedLine(c: string) {
    Contains(c, "[FAIL]") || Contains(c, "[ERROR]") || Contains(c, [Cross])
  }

  predicate IsWarningLine(c: string) {
    Contains(c, "[WARN]")
  }

  /** `'error'` is in the lower-cased line but not in its first ten characters. */
  predicate IsErrorLine(c: string) {
    var l := Lower(c);
    Contains(l, "error") && !Contains(l[..Min(10, |l|)], "error")
  }

  predicate Matches(k: Kind, c: string) {
    match k
    case Passed => IsPassedLine(c)
    case Failed => IsFailedLine(c)
    case Warning => IsWarningLine(c)
    case Error => IsErrorLine(c)
  }

  /** The log split on newlines, each piece with its colour codes removed. */
  function CleanLines(text: string): (cs: seq<string>)
    ensures |cs| == Newlines(text) + 1
  {
    var lines := SplitLines(text);
    SplitLinesCount(text);
    seq(|lines|, i requires 0 <= i < |lines| => StripAnsi(lines[i]))
  }

  /** The trimmed cleaned lines that fall into category `k`, in input order. */
  function Bucket(cs: seq<string>, k: Kind): seq<string> {
    if cs == [] then []
    else (if Matches(k, cs[0]) then [Strip(cs[0])] else []) + Bucket(cs[1..], k)
  }

  /** Every cleaned line, trimmed. */
  function StripAll(cs: seq<string>): (r: seq<string>)
    ensures |r| == |cs|
  {
    seq(|cs|, i requires 0 <= i < |cs| => Strip(cs[i]))
  }

  /** What one pass of the classifier collects for category `k` from a log text. */
  function Classified(text: string, k: Kind): seq<string> {
    Bucket(CleanLines(text), k)
  }

  /** The error rule, stated on occurrences: some `error` exists and none starts at index 5 or before. */
  lemma ErrorRule(c: string)
    ensures IsErrorLine(c) <==>
      (exists i :: OccursAt(Lower(c), "error", i))
      && (forall i :: OccursAt(Lower(c), "error", i) ==> i > 5)
  {
    var l := Lower(c);
    var w := l[..Min(10, |l|)];
    forall i ensures OccursAt(w, "error", i) <==> OccursAt(l, "error", i) && i <= 5 {
      if OccursAt(w, "error", i) {
        assert w[i..i + 5] == l[i..i + 5];
      }
      if OccursAt(l, "error", i) && i <= 5 {
        assert w[i..i + 5] == l[i..i + 5];
      }
    }
  }

  /** An occurrence starting at index 5 or before silences the line, even when
      another occurrence follows. */
  lemma ErrorInWindow()
    ensures !IsErrorLine("foo error bar")
    ensures !IsErrorLine("error: foo bar")
    ensures !IsErrorLine("error: later error")
  {
    LowerUnchanged("foo error bar");
    assert OccursAt("foo error bar"[..10], "error", 4);
    LowerUnchanged("error: foo bar");
    assert OccursAt("error: foo bar"[..10], "error", 0);
    LowerUnchanged("error: later error");
    assert OccursAt("error: later error"[..10], "error", 0);
  }

  /** An occurrence starting at index 5 lies inside the window. */
  lemma ErrorAtFive(s: string)
    requires s == "12345error"
    ensures !IsErrorLine(s)
  {
    LowerUnchanged(s);
    assert s[..10] == s;
    assert OccursAt(s, "error", 5);
  }

  /** An occurrence starting at index 6 or later lies outside the window: when none of the
      first six characters of the lower-cased line is an `e`, the line is an error. */
  lemma ErrorPastWindow(s: string, i: nat)
    requires 6 <= i && OccursAt(Lower(s), "error", i)
    requires forall k :: 0 <= k < 6 ==> Lower(s)[k] != 'e'
    ensures IsErrorLine(s)
  {
    var l := Lower(s);
    assert Contains(l, "error");
    NoStart(l[..10], "error");
  }

  lemma ErrorAtSix(s: string)
    requires s == "123456error"
    ensures IsErrorLine(s)
  {
    LowerUnchanged(s);
    assert OccursAt(s, "error", 6);
    ErrorPastWindow(s, 6);
  }

  /** The test is made on the lower-cased line. */
  lemma ErrorIgnoresCase(s: string)
    requires s == "disk full: Error"
    ensures IsErrorLine(s)
  {
    var low := Lower(s);
    assert low == "disk full: error";
    assert OccursAt(low, "error", 11);
    NoStart(low[..10], "error");
  }

  /** The boundary of the window: a start at index 5 is inside it, at index 6 outside,
      and the test ignores case. */
  lemma ErrorWindowBoundary()
    ensures !IsErrorLine("12345error")
    ensures IsErrorLine("123456error")
    ensures IsErrorLine("disk full: Error")
  {
    ErrorAtFive("12345error");
    ErrorAtSix("123456error");
    ErrorIgnoresCase("disk full: Error");
  }

  /** The rules run on the untrimmed line: leading blanks move `error` out of the window,
      so the trimmed text that is recorded would not itself qualify. */
  lemma LeadingBlanksShiftWindow()
    ensures IsErrorLine("      error: disk")
    ensures Strip("      error: disk") == "error: disk"
    ensures !IsErrorLine("error: disk")
  {
    assert OccursAt("      error: disk", "error", 6);
    LowerUnchanged("      error: disk");
    ErrorPastWindow("      error: disk", 6);
    IndentedStrip("      error: disk");
    PrefixError("error: disk");
  }

  lemma IndentedStrip(s: string)
    requires s == "      error: disk"
    ensures Strip(s) == "error: disk"
  {
    StripExact(s, 6, |s|);
    assert s[6..] == "error: disk";
  }

  lemma PrefixError(s: string)
    requires s == "error: disk"
    ensures !IsErrorLine(s)
  {
    LowerUnchanged(s);
    assert OccursAt(s[..10], "error", 0);
  }

  /** `[PASS] check one` is a passed check and nothing else. */
  lemma PassedOnlyExample(c: string)
    requires c == "[PASS] check one"
    ensures IsPassedLine(c) && !IsFailedLine(c) && !IsWarningLine(c) && !IsErrorLine(c)
  {
    PassMarked(c);
    PassNotFailed(c);
    PassNotWarning(c);
    PassNotError(c);
  }

  lemma PassMarked(c: string)
    requires c == "[PASS] check one"
    ensures IsPassedLine(c)
  {
    assert OccursAt(c, "[PASS]", 0);
  }

  lemma PassNotFailed(c: string)
    requires c == "[PASS] check one"
    ensures !IsFailedLine(c)
  {
    NotFailed(c);
  }

  lemma PassNotWarning(c: string)
    requires c == "[PASS] check one"
    ensures !IsWarningLine(c)
  {
    Absent(c, "[WARN]", 1);
  }

  lemma PassNotError(c: string)
    requires c == "[PASS] check one"
    ensures !IsErrorLine(c)
  {
    NoErrorWord(c);
  }

  /** A line with none of `F`, `E` and the cross-mark is not a failed check. */
  lemma NotFailed(c: string)
    requires 'F' !in c && 'E' !in c && Cross !in c
    ensures !IsFailedLine(c)
  {
    Absent(c, "[FAIL]", 1);
    Absent(c, "[ERROR]", 1);
    Absent(c, [Cross], 0);
  }

  /** A line with no `r` or `R` cannot hold `error` in any case. */
  lemma NoErrorWord(c: string)
    requires 'r' !in c && 'R' !in c
    ensures !IsErrorLine(c)
  {
    var l := Lower(c);
    assert 'r' !in l by {
      forall k | 0 <= k < |l| ensures l[k] != 'r' {
        assert l[k] == LowerChar(c[k]);
      }
    }
    Absent(l, "error", 1);
  }

  /** `[FAIL] check two ✗` is a failed check and nothing else: two failure markers
      still make one membership. */
  lemma FailedOnlyExample()
    ensures IsFailedLine("[FAIL] check two " + [Cross]) && !IsPassedLine("[FAIL] check two " + [Cross])
    ensures !IsWarningLine("[FAIL] check two " + [Cross]) && !IsErrorLine("[FAIL] check two " + [Cross])
  {
    FailedOnly("[FAIL] check two " + [Cross]);
  }

  lemma FailedOnly(c: string)
    requires c == "[FAIL] check two " + [Cross]
    ensures IsFailedLine(c) && !IsPassedLine(c) && !IsWarningLine(c) && !IsErrorLine(c)
  {
    FailMarked(c);
    FailNotPassed(c);
    FailNotWarning(c);
    FailNotError(c);
  }

  lemma FailMarked(c: string)
    requires c == "[FAIL] check two " + [Cross]
    ensures IsFailedLine(c)
  {
    assert OccursAt(c, "[FAIL]", 0);
  }

  lemma FailNotPassed(c: string)
    requires c == "[FAIL] check two " + [Cross]
    ensures !IsPassedLine(c)
  {
    Absent(c, "[PASS]", 1);
    Absent(c, "[SUCCESS]", 1);
    Absent(c, [Tick], 0);
  }

  lemma FailNotWarning(c: string)
    requires c == "[FAIL] check two " + [Cross]
    ensures !IsWarningLine(c)
  {
    Absent(c, "[WARN]", 1);
  }

  lemma FailNotError(c: string)
    requires c == "[FAIL] check two " + [Cross]
    ensures !IsErrorLine(c)
  {
    NoErrorWord(c);
  }

  /** The categories are independent: `[FAIL] disk error` is both a failed check and an error. */
  lemma FailedAndErrorExample()
    ensures IsFailedLine("[FAIL] disk error") && IsErrorLine("[FAIL] disk error")
  {
    var both := "[FAIL] disk error";
    assert OccursAt(both, "[FAIL]", 0);
    assert Lower(both) == "[fail] disk error";
    assert OccursAt(Lower(both), "error", 12);
    NoStart(Lower(both)[..10], "error");
  }

  /** A trimmed text is collected for `k` exactly when some cleaned line satisfying
      the rule of `k` trims to it. */
  lemma {:induction false} BucketMembership(cs: seq<string>, k: Kind, x: string)
    ensures x in Bucket(cs, k) <==> exists i :: 0 <= i < |cs| && Matches(k, cs[i]) && Strip(cs[i]) == x
  {
    if cs != [] {
      BucketMembership(cs[1..], k, x);
      if exists i :: 0 <= i < |cs| && Matches(k, cs[i]) && Strip(cs[i]) == x {
        var i :| 0 <= i < |cs| && Matches(k, cs[i]) && Strip(cs[i]) == x;
        if i > 0 {
          assert cs[1..][i - 1] == cs[i];
        }
      }
      if exists j :: 0 <= j < |cs[1..]| && Matches(k, cs[1..][j]) && Strip(cs[1..][j]) == x {
        var j :| 0 <= j < |cs[1..]| && Matches(k, cs[1..][j]) && Strip(cs[1..][j]) == x;
        assert cs[j + 1] == cs[1..][j];
      }
    }
  }

  /** A category is empty exactly when no cleaned line satisfies its rule. */
  lemma {:induction false} BucketEmpty(cs: seq<string>, k: Kind)
    ensures Bucket(cs, k) == [] <==> forall i :: 0 <= i < |cs| ==> !Matches(k, cs[i])
  {
    if cs != [] {
      BucketEmpty(cs[1..], k);
      if forall i :: 0 <= i < |cs[1..]| ==> !Matches(k, cs[1..][i]) {
        forall i | 1 <= i < |cs| ensures !Matches(k, cs[i]) {
          assert cs[i] == cs[1..][i - 1];
        }
      }
    }
  }

  /** Each category keeps input order: it is a subsequence of the trimmed cleaned lines. */
  lemma {:induction false} BucketOrder(cs: seq<string>, k: Kind)
    ensures Subsequence(Bucket(cs, k), StripAll(cs))
  {
    if cs != [] {
      BucketOrder(cs[1..], k);
      var all := StripAll(cs);
      assert all[0] == Strip(cs[0]) && all[1..] == StripAll(cs[1..]);
      if Matches(k, cs[0]) {
        var b := Bucket(cs, k);
        assert b[0] == all[0] && b[1..] == Bucket(cs[1..], k);
      } else {
        assert Bucket(cs, k) == Bucket(cs[1..], k);
        SubsequencePrepend(Bucket(cs[1..], k), all[..1], all[1..]);
        assert all[..1] + all[1..] == all;
      }
    }
  }

  /** No category holds more entries than there are lines. */
  lemma {:induction false} BucketLength(cs: seq<string>, k: Kind)
    ensures |Bucket(cs, k)| <= |cs|
  {
    if cs != [] {
      BucketLength(cs[1..], k);
    }
  }

  /** Classifying the concatenation of two runs of lines concatenates their categories. */
  lemma {:induction false} BucketAppend(a: seq<string>, b: seq<string>, k: Kind)
    ensures Bucket(a + b, k) == Bucket(a, k) + Bucket(b, k)
  {
    if a == [] {
      assert a + b == b;
    } else {
      var head := if Matches(k, a[0]) then [Strip(a[0])] else [];
      BucketUncons(a, b, k);
      BucketAppend(a[1..], b, k);
      AppendAssoc(head, Bucket(a[1..], k), Bucket(b, k));
    }
  }

  /** The first line of a non-empty run is classified before the rest. */
  lemma BucketUncons(a: seq<string>, b: seq<string>, k: Kind)
    requires a != []
    ensures Bucket(a + b, k) == (if Matches(k, a[0]) then [Strip(a[0])] else []) + Bucket(a[1..] + b, k)
  {
    assert (a + b)[0] == a[0];
    assert (a + b)[1..] == a[1..] + b;
  }

  /** One pass over a text collects at most one entry per newline-separated piece. */
  lemma ClassifiedLength(text: string, k: Kind)
    ensures |Classified(text, k)| <= Newlines(text) + 1
  {
    BucketLength(CleanLines(text), k);
  }

  /** An empty log (also what a missing file becomes) yields four empty categories. */
  lemma EmptyLog(k: Kind)
    ensures Classified("", k) == []
  {
    var cs := CleanLines("");
    assert SplitLines("") == [""];
    assert cs == [""];
    assert Lower("") == "";
    assert !Matches(k, "");
  }
}
