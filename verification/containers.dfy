/**
 * The container status extractor. The lower-cased log is searched, left to
 * right and without overlaps, for the pattern
 *
 *     poc1_(\w+)\s+.*\s+(running|exited|created|restarting|paused)
 *
 * and every match assigns its state to its name in an insertion-ordered
 * dictionary. Only this one pattern is modelled, by a hand-written scanner
 * that follows the backtracking order of the regular-expression engine:
 * greedy quantifiers try the longest run first, and the alternatives of
 * the state word are tried left to right.
 */
module Containers {
  import opened Wrappers
  import opened Text

  const Prefix: string := "poc1_"
  const StateWords: seq<string> := ["running", "exited", "created", "restarting", "paused"]

  /** The character classes of the pattern: `\w`, `\s` and `.` (anything but a newline). */
  datatype CharClass = Word | Space | NotNewline

  predicate InClass(cl: CharClass, ch: char) {
    match cl
    case Word => IsWordChar(ch)
    case Space => IsSpace(ch)
    case NotNewline => ch != '\n'
  }

  ghost predicate AllIn(t: string, a: int, b: int, cl: CharClass)
    requires 0 <= a <= b <= |t|
  {
    forall k :: a <= k < b ==> InClass(cl, t[k])
  }

  /** The end of the longest run of class `cl` starting at `i`. */
  function RunEnd(t: string, i: nat, cl: CharClass): (j: nat)
    requires i <= |t|
    ensures i <= j <= |t| && AllIn(t, i, j, cl)
    ensures j < |t| ==> !InClass(cl, t[j])
    decreases |t| - i
  {
    if i < |t| && InClass(cl, t[i]) then RunEnd(t, i + 1, cl) else i
  }

  /** A run that cannot be extended is the longest one. */
  lemma RunEndUnique(t: string, i: nat, j: nat, cl: CharClass)
    requires i <= j <= |t| && AllIn(t, i, j, cl)
    requires j < |t| ==> !InClass(cl, t[j])
    ensures RunEnd(t, i, cl) == j
  {
  }

  /** Any run starting at `i` ends no later than the longest one. */
  lemma RunEndBound(t: string, i: nat, j: nat, cl: CharClass)
    requires i <= j <= |t| && AllIn(t, i, j, cl)
    ensures j <= RunEnd(t, i, cl)
  {
  }

  /** The state word starting at `i`, trying the alternatives in the pattern's order. */
  function StateAt(t: string, i: nat): (r: Option<string>)
    ensures r.Some? ==> r.value in StateWords && OccursAt(t, r.value, i)
    ensures r.None? ==> forall w :: w in StateWords ==> !OccursAt(t, w, i)
  {
    if OccursAt(t, "running", i) then Some("running")
    else if OccursAt(t, "exited", i) then Some("exited")
    else if OccursAt(t, "created", i) then Some("created")
    else if OccursAt(t, "restarting", i) then Some("restarting")
    else if OccursAt(t, "paused", i) then Some("paused")
    else None
  }

  /** No two state words start at one index: they differ in their first two letters. So the
      order in which the alternatives are tried does not matter. */
  lemma StateWordsExclusive(t: string, i: nat, w1: string, w2: string)
    requires w1 in StateWords && w2 in StateWords
    requires OccursAt(t, w1, i) && OccursAt(t, w2, i)
    ensures w1 == w2
  {
    assert w1[0] == t[i] == w2[0] by {
      assert t[i..i + |w1|][0] == w1[0];
      assert t[i..i + |w2|][0] == w2[0];
    }
    assert w1[1] == t[i + 1] == w2[1] by {
      assert t[i..i + |w1|][1] == w1[1];
      assert t[i..i + |w2|][1] == w2[1];
    }
  }

  /** The state word found at an index is any state word that occurs there. */
  lemma StateAtExact(t: string, i: nat, w: string)
    ensures StateAt(t, i) == Some(w) <==> w in StateWords && OccursAt(t, w, i)
  {
    if w in StateWords && OccursAt(t, w, i) {
      StateWordsExclusive(t, i, StateAt(t, i).value, w);
    }
  }

  /**
   * Where one way of matching the pattern at `p` places its pieces:
   * `poc1_` at `p`, the name up to `nameEnd`, the first `\s+` up to `dotStart`,
   * `.*` up to `dotEnd`, the second `\s+` up to `stateStart`, then the state word.
   */
  datatype Config = Config(nameEnd: nat, dotStart: nat, dotEnd: nat, stateStart: nat)

  /** The pattern matches at `p` with its pieces placed as `c` says. */
  ghost predicate IsMatchAt(t: string, p: nat, c: Config) {
    && OccursAt(t, Prefix, p)
    && p + |Prefix| < c.nameEnd < c.dotStart <= c.dotEnd < c.stateStart <= |t|
    && AllIn(t, p + |Prefix|, c.nameEnd, Word)
    && AllIn(t, c.nameEnd, c.dotStart, Space)
    && AllIn(t, c.dotStart, c.dotEnd, NotNewline)
    && AllIn(t, c.dotEnd, c.stateStart, Space)
    && exists w :: w in StateWords && OccursAt(t, w, c.stateStart)
  }

  /** The engine tries `a` no later than `b`: greedy quantifiers prefer longer pieces,
      earlier quantifiers first. */
  predicate Prefers(a: Config, b: Config) {
    || a.nameEnd > b.nameEnd
    || (a.nameEnd == b.nameEnd && a.dotStart > b.dotStart)
    || (a.nameEnd == b.nameEnd && a.dotStart == b.dotStart && a.dotEnd > b.dotEnd)
    || (a.nameEnd == b.nameEnd && a.dotStart == b.dotStart && a.dotEnd == b.dotEnd
        && a.stateStart >= b.stateStart)
  }

  /** A state word starts with a letter. */
  lemma StateWordStart(t: string, w: string, i: nat)
    requires w in StateWords && OccursAt(t, w, i)
    ensures i < |t| && !IsSpace(t[i])
  {
    assert t[i..i + |w|][0] == t[i];
  }

  /** In any match the name is the whole word run after `poc1_`, the first gap stays within the
      whitespace that follows it, `.*` stays within its line, and the second gap is all the
      whitespace before the state word. */
  lemma MatchShape(t: string, p: nat, c: Config)
    requires IsMatchAt(t, p, c)
    ensures c.nameEnd == RunEnd(t, p + |Prefix|, Word)
    ensures c.dotStart <= RunEnd(t, c.nameEnd, Space)
    ensures c.dotEnd <= RunEnd(t, c.dotStart, NotNewline)
    ensures c.stateStart == RunEnd(t, c.dotEnd, Space)
  {
    assert IsSpace(t[c.nameEnd]);
    RunEndUnique(t, p + |Prefix|, c.nameEnd, Word);
    RunEndBound(t, c.nameEnd, c.dotStart, Space);
    RunEndBound(t, c.dotStart, c.dotEnd, NotNewline);
    var w :| w in StateWords && OccursAt(t, w, c.stateStart);
    StateWordStart(t, w, c.stateStart);
    RunEndUnique(t, c.dotEnd, c.stateStart, Space);
  }

  /** The two gaps of a match: the name run is followed by whitespace, and `.*` ends on
      whitespace before the state word. */
  lemma GapShape(t: string, p: nat, c: Config)
    ensures IsMatchAt(t, p, c) ==>
      && c.nameEnd == RunEnd(t, p + |Prefix|, Word)
      && c.dotStart <= RunEnd(t, c.nameEnd, Space)
      && c.nameEnd < c.dotStart <= c.dotEnd < |t| && IsSpace(t[c.dotEnd])
      && c.stateStart == RunEnd(t, c.dotEnd, Space)
  {
    if IsMatchAt(t, p, c) {
      MatchShape(t, p, c);
    }
  }

  /** `.*` ending at `d` can be followed by `\s+` and a state word. */
  predicate Hit(t: string, d: nat)
    requires d <= |t|
  {
    var s2 := RunEnd(t, d, Space);
    s2 > d && StateAt(t, s2).Some?
  }

  /** The longest `.*`, ending between `s1` and `d`, that can be followed by the rest. */
  function SearchDot(t: string, s1: nat, d: nat): (r: Option<nat>)
    requires s1 <= d <= |t|
    ensures r.Some? ==> s1 <= r.value <= d
    decreases d
  {
    if Hit(t, d) then Some(d)
    else if d == s1 then None
    else SearchDot(t, s1, d - 1)
  }

  /** The `.*` found can be completed by `\s+` and a state word. */
  lemma {:induction false} SearchDotHit(t: string, s1: nat, d: nat)
    requires s1 <= d <= |t| && SearchDot(t, s1, d).Some?
    ensures Hit(t, SearchDot(t, s1, d).value)
    decreases d
  {
    if !Hit(t, d) {
      SearchDotHit(t, s1, d - 1);
    }
  }

  /** The `.*` found is the longest that can be completed: no end after it can be, and when
      none is found no end between `s1` and `d` can be. */
  lemma {:induction false} SearchDotLongest(t: string, s1: nat, d: nat, e: nat)
    requires s1 <= e <= d <= |t|
    requires SearchDot(t, s1, d).None? || SearchDot(t, s1, d).value < e
    ensures !Hit(t, e)
    decreases d
  {
    if e < d {
      assert SearchDot(t, s1, d) == SearchDot(t, s1, d - 1);
      SearchDotLongest(t, s1, d - 1, e);
    }
  }

  /** The preferred match whose first gap ends at `s1` or before. */
  function SearchGap(t: string, p: nat, e: nat, s1: nat): (r: Option<Config>)
    requires OccursAt(t, Prefix, p) && p + |Prefix| < e == RunEnd(t, p + |Prefix|, Word)
    requires e <= s1 <= RunEnd(t, e, Space)
    ensures r.Some? ==> IsMatchAt(t, p, r.value) && r.value.dotStart <= s1
    ensures r.Some? ==> forall c :: IsMatchAt(t, p, c) && c.dotStart <= s1 ==> Prefers(r.value, c)
    ensures r.None? ==> forall c :: IsMatchAt(t, p, c) ==> c.dotStart > s1
    decreases s1
  {
    if s1 == e then
      GapEmpty(t, p, e);
      None
    else
      var d0 := RunEnd(t, s1, NotNewline);
      match SearchDot(t, s1, d0)
      case Some(d) =>
        SearchDotHit(t, s1, d0);
        assert forall x :: d < x <= d0 ==> !Hit(t, x) by {
          forall x | d < x <= d0 ensures !Hit(t, x) { SearchDotLongest(t, s1, d0, x); }
        }
        GapFound(t, p, e, s1, d);
        Some(Config(e, s1, d, RunEnd(t, d, Space)))
      case None =>
        assert forall x :: s1 <= x <= d0 ==> !Hit(t, x) by {
          forall x | s1 <= x <= d0 ensures !Hit(t, x) { SearchDotLongest(t, s1, d0, x); }
        }
        GapMissed(t, p, e, s1);
        SearchGap(t, p, e, s1 - 1)
  }

  /** The first `\s+` cannot be empty. */
  lemma GapEmpty(t: string, p: nat, e: nat)
    requires OccursAt(t, Prefix, p) && e == RunEnd(t, p + |Prefix|, Word)
    ensures forall c :: IsMatchAt(t, p, c) ==> c.dotStart > e
  {
    forall c | IsMatchAt(t, p, c) ensures c.dotStart > e { MatchShape(t, p, c); }
  }

  /** With the first gap ending at `s1`, the longest `.*` that can be completed gives the
      preferred match among those whose first gap ends at `s1` or before. */
  lemma GapFound(t: string, p: nat, e: nat, s1: nat, d: nat)
    requires OccursAt(t, Prefix, p) && p + |Prefix| < e == RunEnd(t, p + |Prefix|, Word)
    requires e < s1 <= RunEnd(t, e, Space)
    requires s1 <= d <= RunEnd(t, s1, NotNewline) && Hit(t, d)
    requires forall x :: d < x <= RunEnd(t, s1, NotNewline) ==> !Hit(t, x)
    ensures IsMatchAt(t, p, Config(e, s1, d, RunEnd(t, d, Space)))
    ensures forall c :: IsMatchAt(t, p, c) && c.dotStart <= s1 ==> Prefers(Config(e, s1, d, RunEnd(t, d, Space)), c)
  {
    var c := Config(e, s1, d, RunEnd(t, d, Space));
    assert StateAt(t, c.stateStart).value in StateWords;
    forall c' | IsMatchAt(t, p, c') && c'.dotStart <= s1 ensures Prefers(c, c') {
      MatchShape(t, p, c');
      if c'.dotStart == s1 {
        var w :| w in StateWords && OccursAt(t, w, c'.stateStart);
        assert Hit(t, c'.dotEnd);
      }
    }
  }

  /** When no `.*` after a first gap ending at `s1` can be completed, no match has that gap. */
  lemma GapMissed(t: string, p: nat, e: nat, s1: nat)
    requires OccursAt(t, Prefix, p) && s1 <= |t|
    requires forall x :: s1 <= x <= RunEnd(t, s1, NotNewline) ==> !Hit(t, x)
    ensures forall c :: IsMatchAt(t, p, c) ==> c.dotStart != s1
  {
    forall c | IsMatchAt(t, p, c) ensures c.dotStart != s1 {
      MatchShape(t, p, c);
      var w :| w in StateWords && OccursAt(t, w, c.stateStart);
      if c.dotStart == s1 {
        assert StateAt(t, c.stateStart).Some?;
        assert Hit(t, c.dotEnd);
      }
    }
  }

  /** The match the engine finds when it tries to match at `p`: the preferred one, if any. */
  function FindAt(t: string, p: nat): (r: Option<Config>)
    requires p <= |t|
    ensures r.Some? ==> IsMatchAt(t, p, r.value)
    ensures r.Some? ==> forall c :: IsMatchAt(t, p, c) ==> Prefers(r.value, c)
    ensures r.None? ==> forall c :: !IsMatchAt(t, p, c)
  {
    if !OccursAt(t, Prefix, p) then None
    else
      var e := RunEnd(t, p + |Prefix|, Word);
      assert forall c :: IsMatchAt(t, p, c) ==> c.nameEnd == e && c.dotStart <= RunEnd(t, e, Space) by {
        forall c | IsMatchAt(t, p, c) ensures c.nameEnd == e && c.dotStart <= RunEnd(t, e, Space) {
          MatchShape(t, p, c);
        }
      }
      if e == p + |Prefix| then None
      else SearchGap(t, p, e, RunEnd(t, e, Space))
  }

  /** A match as `re.finditer` reports it: where it starts, how it was placed,
      and its two groups. */
  datatype Match = Match(start: nat, config: Config, name: string, state: string)

  /** The index just past a match. */
  function End(m: Match): nat {
    m.config.stateStart + |m.state|
  }

  /** The match at `p` with its groups: the name after `poc1_` and the state word. */
  function MatchAt(t: string, p: nat): (r: Option<Match>)
    requires p <= |t|
    ensures r.Some? <==> FindAt(t, p).Some?
    ensures r.Some? ==> r.value.start == p && r.value.config == FindAt(t, p).value
    ensures r.Some? ==> r.value.name == t[p + |Prefix|..r.value.config.nameEnd]
    ensures r.Some? ==> StateAt(t, r.value.config.stateStart) == Some(r.value.state)
    ensures r.Some? ==> p < End(r.value) <= |t|
  {
    match FindAt(t, p)
    case None => None
    case Some(c) =>
      Some(Match(p, c, t[p + |Prefix|..c.nameEnd], StateAt(t, c.stateStart).value))
  }

  /** `m` is what the engine reports when it tries to match at `m.start`. */
  ghost predicate ValidMatch(t: string, m: Match) {
    m.start <= |t| && MatchAt(t, m.start) == Some(m)
  }

  /** Where the first match at `pos` or later starts. */
  function NextStart(t: string, pos: nat): (r: Option<nat>)
    requires pos <= |t|
    ensures r.Some? ==> pos <= r.value <= |t| && FindAt(t, r.value).Some?
    decreases |t| - pos
  {
    if FindAt(t, pos).Some? then Some(pos)
    else if pos == |t| then None
    else NextStart(t, pos + 1)
  }

  /** No match starts between `pos` and the start `NextStart` reports, and none at all when
      it reports nothing. */
  lemma {:induction false} NextStartFirst(t: string, pos: nat, q: nat)
    requires pos <= q <= |t|
    requires NextStart(t, pos).None? || q < NextStart(t, pos).value
    ensures FindAt(t, q).None?
    decreases q - pos
  {
    if q > pos {
      assert FindAt(t, pos).None?;
      NextStartFirst(t, pos + 1, q);
    }
  }

  /** `re.finditer`: after each match the search resumes where it ended. */
  function Scan(t: string, pos: nat): seq<Match>
    requires pos <= |t|
    decreases |t| - pos
  {
    match NextStart(t, pos)
    case None => []
    case Some(q) =>
      var m := MatchAt(t, q).value;
      [m] + Scan(t, End(m))
  }

  /** When a match lies ahead, the scan reports the first one and resumes after it. */
  lemma ScanStep(t: string, pos: nat)
    requires pos <= |t| && NextStart(t, pos).Some?
    ensures Scan(t, pos) != []
    ensures Scan(t, pos)[0].start == NextStart(t, pos).value
    ensures ValidMatch(t, Scan(t, pos)[0])
    ensures pos < End(Scan(t, pos)[0]) <= |t|
    ensures Scan(t, pos)[1..] == Scan(t, End(Scan(t, pos)[0]))
  {
  }

  /** Every reported match is what the engine finds at its start, at or after `pos`. */
  lemma {:induction false} ScanSound(t: string, pos: nat)
    requires pos <= |t|
    ensures forall m :: m in Scan(t, pos) ==> ValidMatch(t, m) && pos <= m.start
    decreases |t| - pos
  {
    if NextStart(t, pos).Some? {
      ScanStep(t, pos);
      var ms := Scan(t, pos);
      ScanSound(t, End(ms[0]));
      forall m | m in ms ensures ValidMatch(t, m) && pos <= m.start {
        if m != ms[0] {
          assert m in ms[1..];
        }
      }
    }
  }

  /** Reported matches come in text order and do not overlap. */
  lemma {:induction false} ScanOrdered(t: string, pos: nat)
    requires pos <= |t|
    ensures forall i :: 0 < i < |Scan(t, pos)| ==> End(Scan(t, pos)[i - 1]) <= Scan(t, pos)[i].start
    decreases |t| - pos
  {
    if NextStart(t, pos).Some? {
      ScanStep(t, pos);
      var ms := Scan(t, pos);
      var rest := ms[1..];
      ScanOrdered(t, End(ms[0]));
      ScanSound(t, End(ms[0]));
      forall i | 0 < i < |ms| ensures End(ms[i - 1]) <= ms[i].start {
        assert ms[i] == rest[i - 1];
        if i > 1 {
          assert ms[i - 1] == rest[i - 2];
        } else {
          assert rest[0] in rest;
        }
      }
    }
  }

  /** No place where the pattern could match is skipped, unless it lies inside a reported match. */
  lemma {:induction false} ScanComplete(t: string, pos: nat, q: nat)
    requires pos <= q <= |t| && FindAt(t, q).Some?
    ensures exists i :: 0 <= i < |Scan(t, pos)| && Scan(t, pos)[i].start <= q < End(Scan(t, pos)[i])
    decreases |t| - pos
  {
    assert NextStart(t, pos).Some? && NextStart(t, pos).value <= q by {
      if NextStart(t, pos).None? || q < NextStart(t, pos).value {
        NextStartFirst(t, pos, q);
      }
    }
    ScanStep(t, pos);
    var ms := Scan(t, pos);
    var m := ms[0];
    if q >= End(m) {
      ScanComplete(t, End(m), q);
      var rest := ms[1..];
      var i :| 0 <= i < |rest| && rest[i].start <= q < End(rest[i]);
      assert ms[i + 1] == rest[i];
    } else {
      assert m.start <= q;
    }
  }

  /** Without `poc1_` anywhere, nothing is reported. */
  lemma NoPrefixNoMatch(t: string)
    requires !Contains(t, Prefix)
    ensures Scan(t, 0) == []
  {
    assert NextStart(t, 0).None?;
  }

  /** A Python dictionary of container states: the entries, and the keys in insertion order. */
  datatype Dict = Dict(states: map<string, string>, order: seq<string>)

  const EmptyDict: Dict := Dict(map[], [])

  ghost predicate WellFormed(d: Dict) {
    && (forall i, j :: 0 <= i < j < |d.order| ==> d.order[i] != d.order[j])
    && (forall k :: k in d.states <==> k in d.order)
  }

  /** `d[k] = v`: a new key goes last, an existing key keeps its place. */
  function Put(d: Dict, k: string, v: string): Dict {
    Dict(d.states[k := v], if k in d.states then d.order else d.order + [k])
  }

  /** Assignment keeps the keys listed once each, in the same set as the entries. */
  lemma PutWellFormed(d: Dict, k: string, v: string)
    requires WellFormed(d)
    ensures WellFormed(Put(d, k, v))
    ensures Put(d, k, v).states[k] == v
    ensures forall x :: x != k ==> (x in Put(d, k, v).states <==> x in d.states)
    ensures forall x :: x != k && x in d.states ==> Put(d, k, v).states[x] == d.states[x]
  {
  }

  /** The loop of the extractor: each match in turn assigns its state to its name. */
  function Record(d: Dict, ms: seq<Match>): Dict
    decreases |ms|
  {
    if ms == [] then d else Record(Put(d, ms[0].name, ms[0].state), ms[1..])
  }

  /** What the extractor returns for a log text. */
  function ContainerTable(text: string): Dict {
    Record(EmptyDict, Scan(Lower(text), 0))
  }

  lemma {:induction false} RecordWellFormed(d: Dict, ms: seq<Match>)
    requires WellFormed(d)
    ensures WellFormed(Record(d, ms))
    decreases |ms|
  {
    if ms != [] {
      PutWellFormed(d, ms[0].name, ms[0].state);
      RecordWellFormed(Put(d, ms[0].name, ms[0].state), ms[1..]);
    }
  }

  /** A name ends up in the dictionary exactly when it was there or some match carries it. */
  lemma {:induction false} RecordKeys(d: Dict, ms: seq<Match>, k: string)
    ensures k in Record(d, ms).states <==> k in d.states || exists i :: 0 <= i < |ms| && ms[i].name == k
    decreases |ms|
  {
    if ms != [] {
      RecordKeys(Put(d, ms[0].name, ms[0].state), ms[1..], k);
      if exists i :: 0 <= i < |ms| && ms[i].name == k {
        var i :| 0 <= i < |ms| && ms[i].name == k;
        if i > 0 {
          assert ms[1..][i - 1] == ms[i];
        }
      }
      if exists i :: 0 <= i < |ms[1..]| && ms[1..][i].name == k {
        var i :| 0 <= i < |ms[1..]| && ms[1..][i].name == k;
        assert ms[i + 1] == ms[1..][i];
      }
    }
  }

  /** Last write wins: a name keeps the state of the last match that carries it. */
  lemma {:induction false} RecordLastWins(d: Dict, ms: seq<Match>, i: nat)
    requires i < |ms|
    requires forall j :: i < j < |ms| ==> ms[j].name != ms[i].name
    ensures ms[i].name in Record(d, ms).states
    ensures Record(d, ms).states[ms[i].name] == ms[i].state
    decreases |ms|
  {
    var d' := Put(d, ms[0].name, ms[0].state);
    if i == 0 {
      RecordUntouched(d', ms[1..], ms[0].name);
    } else {
      forall j | i - 1 < j < |ms[1..]| ensures ms[1..][j].name != ms[1..][i - 1].name {
        assert ms[1..][j] == ms[j + 1];
      }
      RecordLastWins(d', ms[1..], i - 1);
    }
  }

  /** A name that no match carries keeps its entry. */
  lemma {:induction false} RecordUntouched(d: Dict, ms: seq<Match>, k: string)
    requires forall j :: 0 <= j < |ms| ==> ms[j].name != k
    ensures k in Record(d, ms).states <==> k in d.states
    ensures k in d.states ==> Record(d, ms).states[k] == d.states[k]
    decreases |ms|
  {
    if ms != [] {
      forall j | 0 <= j < |ms[1..]| ensures ms[1..][j].name != k {
        assert ms[1..][j] == ms[j + 1];
      }
      RecordUntouched(Put(d, ms[0].name, ms[0].state), ms[1..], k);
    }
  }

  /** Every value recorded from matches is one of the five state words. */
  lemma {:induction false} RecordValues(d: Dict, ms: seq<Match>, k: string)
    requires forall x :: x in d.states ==> d.states[x] in StateWords
    requires forall j :: 0 <= j < |ms| ==> ms[j].state in StateWords
    requires k in Record(d, ms).states
    ensures Record(d, ms).states[k] in StateWords
    decreases |ms|
  {
    if ms != [] {
      forall j | 0 <= j < |ms[1..]| ensures ms[1..][j].state in StateWords {
        assert ms[1..][j] == ms[j + 1];
      }
      RecordValues(Put(d, ms[0].name, ms[0].state), ms[1..], k);
    }
  }

  /** The names the matches carry, in match order. */
  function Names(ms: seq<Match>): (ns: seq<string>)
    ensures |ns| == |ms| && forall i :: 0 <= i < |ms| ==> ns[i] == ms[i].name
  {
    seq(|ms|, i requires 0 <= i < |ms| => ms[i].name)
  }

  /** The names of `ns` that are not in `seen`, each once, in order of first appearance. */
  function FirstSeen(seen: set<string>, ns: seq<string>): seq<string>
    decreases |ns|
  {
    if ns == [] then []
    else if ns[0] in seen then FirstSeen(seen, ns[1..])
    else [ns[0]] + FirstSeen(seen + {ns[0]}, ns[1..])
  }

  /** A name is listed exactly when it appears and was not seen before. */
  lemma {:induction false} FirstSeenMembers(seen: set<string>, ns: seq<string>, x: string)
    ensures x in FirstSeen(seen, ns) <==> x in ns && x !in seen
    decreases |ns|
  {
    if ns != [] {
      FirstSeenMembers(seen + {ns[0]}, ns[1..], x);
      FirstSeenMembers(seen, ns[1..], x);
      assert ns == [ns[0]] + ns[1..];
    }
  }

  /** Assignment in match order: the keys already present keep their places, and each new
      name goes last when it is first matched; later matches of it do not move it. */
  lemma {:induction false} RecordOrder(d: Dict, ms: seq<Match>)
    ensures Record(d, ms).order == d.order + FirstSeen(d.states.Keys, Names(ms))
    decreases |ms|
  {
    if ms != [] {
      var m := ms[0];
      var d1 := Put(d, m.name, m.state);
      RecordOrder(d1, ms[1..]);
      assert Names(ms)[0] == m.name && Names(ms)[1..] == Names(ms[1..]);
      if m.name in d.states {
        assert d1.states.Keys == d.states.Keys;
      } else {
        assert d1.states.Keys == d.states.Keys + {m.name};
        AppendAssoc(d.order, [m.name], FirstSeen(d1.states.Keys, Names(ms[1..])));
      }
    }
  }

  /** The dictionary lists each key once, and exactly its keys. */
  lemma ContainerTableWellFormed(text: string)
    ensures WellFormed(ContainerTable(text))
  {
    RecordWellFormed(EmptyDict, Scan(Lower(text), 0));
  }

  /** The containers are listed in the order in which each is first matched in the log. */
  lemma ContainerOrder(text: string)
    ensures ContainerTable(text).order == FirstSeen({}, Names(Scan(Lower(text), 0)))
  {
    RecordOrder(EmptyDict, Scan(Lower(text), 0));
    assert EmptyDict.states.Keys == {};
  }

  /** Every value is one of running, exited, created, restarting, paused. */
  lemma ContainerStates(text: string, k: string)
    requires k in ContainerTable(text).states
    ensures ContainerTable(text).states[k] in StateWords
  {
    var t := Lower(text);
    var ms := Scan(t, 0);
    ScanSound(t, 0);
    forall j | 0 <= j < |ms| ensures ms[j].state in StateWords {
      assert ms[j] in ms;
    }
    RecordValues(EmptyDict, ms, k);
  }

  /** `poc1_` starts at `p`, `k` directly follows it, and whitespace follows `k`. */
  predicate NameAt(t: string, p: nat, k: string) {
    && OccursAt(t, Prefix, p) && OccursAt(t, k, p + |Prefix|)
    && p + |Prefix| + |k| < |t| && IsSpace(t[p + |Prefix| + |k|])
  }

  /** The name of a reported match is a non-empty run of word characters that directly follows
      `poc1_` and is followed by whitespace. */
  lemma MatchName(t: string, m: Match)
    requires ValidMatch(t, m)
    ensures m.name != [] && forall x :: 0 <= x < |m.name| ==> IsWordChar(m.name[x])
    ensures NameAt(t, m.start, m.name)
  {
    var p := m.start;
    var c := m.config;
    assert IsMatchAt(t, p, c);
    assert IsSpace(t[c.nameEnd]);
  }

  /** Every key is a non-empty run of word characters that directly follows `poc1_` in the
      lower-cased text and is followed by whitespace. */
  lemma ContainerNames(text: string, t: string, k: string)
    requires t == Lower(text)
    requires k in ContainerTable(text).states
    ensures k != [] && forall x :: 0 <= x < |k| ==> IsWordChar(k[x])
    ensures exists p :: NameAt(t, p, k)
  {
    var ms := Scan(t, 0);
    assert exists i :: 0 <= i < |ms| && ms[i].name == k by {
      RecordKeys(EmptyDict, ms, k);
    }
    var i :| 0 <= i < |ms| && ms[i].name == k;
    var m := ms[i];
    assert ValidMatch(t, m) by {
      ScanSound(t, 0);
      assert m in ms;
    }
    MatchName(t, m);
  }

  /** Last write wins over the whole log: a name matched several times keeps the state of its
      last match. */
  lemma ContainerLastWins(text: string, ms: seq<Match>, i: nat)
    requires ms == Scan(Lower(text), 0)
    requires i < |ms| && forall j :: i < j < |ms| ==> ms[j].name != ms[i].name
    ensures ms[i].name in ContainerTable(text).states
    ensures ContainerTable(text).states[ms[i].name] == ms[i].state
  {
    RecordLastWins(EmptyDict, ms, i);
  }

  /** A log without `poc1_` in any case yields an empty dictionary. */
  lemma NoPrefixNoContainers(text: string)
    requires !Contains(Lower(text), Prefix)
    ensures ContainerTable(text) == EmptyDict
  {
    NoPrefixNoMatch(Lower(text));
  }

  /** The pattern can only match where `poc1_` starts, so a text whose only `p` is at index `p`
      has no match anywhere else. */
  lemma OnlyStart(t: string, p: nat)
    requires forall q :: 0 <= q < |t| && q != p ==> t[q] != 'p'
    ensures forall q :: 0 <= q <= |t| && q != p ==> FindAt(t, q).None?
  {
    forall q | 0 <= q <= |t| && q != p ensures !OccursAt(t, Prefix, q) {
      if q + |Prefix| <= |t| {
        assert t[q..q + |Prefix|][0] == t[q];
      }
    }
  }

  /** A single space between name and state cannot serve both `\s+`: no entry. */
  lemma SingleSpaceExample(text: string)
    requires text == "poc1_web running"
    ensures ContainerTable(text) == EmptyDict
  {
    LowerUnchanged(text);
    var t := Lower(text);
    SingleSpaceRuns(t);
    OnlyStart(t, 0);
    forall c ensures !IsMatchAt(t, 0, c) {
      GapShape(t, 0, c);
    }
    assert NextStart(t, 0).None?;
  }

  lemma SingleSpaceRuns(t: string)
    requires t == "poc1_web running"
    ensures forall q :: 0 <= q < |t| && q != 0 ==> t[q] != 'p'
    ensures RunEnd(t, 5, Word) == 8 && RunEnd(t, 8, Space) == 9
    ensures forall k :: 9 <= k < |t| ==> !IsSpace(t[k])
  {
    RunEndUnique(t, 5, 8, Word);
    RunEndUnique(t, 8, 9, Space);
  }

  /** A text whose only match starts at 0 and runs to its end yields one entry. */
  lemma OneMatchTable(text: string, m: Match)
    requires MatchAt(Lower(text), 0) == Some(m) && End(m) == |Lower(text)|
    ensures ContainerTable(text) == Dict(map[m.name := m.state], [m.name])
  {
    var t := Lower(text);
    assert NextStart(t, |t|).None?;
    assert Scan(t, |t|) == [];
    assert NextStart(t, 0) == Some(0);
    assert Scan(t, 0) == [m] + Scan(t, End(m));
    var d := Put(EmptyDict, m.name, m.state);
    assert Record(EmptyDict, [m]) == Record(d, []);
  }

  /** Two spaces are enough: the first gap takes one, `.*` matches nothing, the second gap
      takes the other. */
  lemma DoubleSpaceExample(text: string)
    requires text == "poc1_web  running"
    ensures ContainerTable(text) == Dict(map["web" := "running"], ["web"])
  {
    assert Lower(text) == text by {
      LowerUnchanged(text);
    }
    var m := DoubleSpaceMatch(text);
    OneMatchTable(text, m);
  }

  lemma DoubleSpaceMatch(t: string) returns (m: Match)
    requires t == "poc1_web  running"
    ensures MatchAt(t, 0) == Some(m) && m.name == "web" && m.state == "running" && End(m) == |t|
  {
    DoubleSpaceGroups(t);
    DoubleSpaceConfig(t);
    m := MatchAt(t, 0).value;
  }

  lemma DoubleSpaceGroups(t: string)
    requires t == "poc1_web  running"
    ensures t[5..8] == "web" && StateAt(t, 10) == Some("running") && |t| == 17
  {
  }

  lemma DoubleSpaceConfig(t: string)
    requires t == "poc1_web  running"
    ensures FindAt(t, 0) == Some(Config(8, 9, 9, 10))
  {
    DoubleSpaceRuns(t);
    assert IsMatchAt(t, 0, Config(8, 9, 9, 10));
    var c := FindAt(t, 0).value;
    GapShape(t, 0, c);
  }

  /** `\s` crosses line ends while `.` does not: a name and a state on two lines, joined by
      whitespace around the newline, still make an entry. */
  lemma NewlineGapExample(text: string)
    requires text == "poc1_web \n running"
    ensures ContainerTable(text) == Dict(map["web" := "running"], ["web"])
  {
    assert Lower(text) == text by {
      LowerUnchanged(text);
    }
    var m := NewlineGapMatch(text);
    OneMatchTable(text, m);
  }

  lemma NewlineGapMatch(t: string) returns (m: Match)
    requires t == "poc1_web \n running"
    ensures MatchAt(t, 0) == Some(m) && m.name == "web" && m.state == "running" && End(m) == |t|
  {
    NewlineGapGroups(t);
    var c := NewlineGapConfig(t);
    m := MatchAt(t, 0).value;
  }

  lemma NewlineGapGroups(t: string)
    requires t == "poc1_web \n running"
    ensures t[5..8] == "web" && StateAt(t, 11) == Some("running") && |t| == 18
  {
  }

  lemma NewlineGapConfig(t: string) returns (c: Config)
    requires t == "poc1_web \n running"
    ensures FindAt(t, 0) == Some(c) && c.nameEnd == 8 && c.stateStart == 11
  {
    NewlineGapRuns(t);
    assert IsMatchAt(t, 0, Config(8, 10, 10, 11));
    c := FindAt(t, 0).value;
    GapShape(t, 0, c);
  }

  lemma NewlineGapRuns(t: string)
    requires t == "poc1_web \n running"
    ensures RunEnd(t, 5, Word) == 8 && RunEnd(t, 8, Space) == 11
    ensures RunEnd(t, 9, Space) == 11 && RunEnd(t, 10, Space) == 11
    ensures forall k :: 11 <= k < |t| ==> !IsSpace(t[k])
    ensures OccursAt(t, "running", 11)
  {
    NewlineGapState(t);
    RunEndUnique(t, 5, 8, Word);
    RunEndUnique(t, 8, 11, Space);
    RunEndUnique(t, 9, 11, Space);
    RunEndUnique(t, 10, 11, Space);
  }

  lemma DoubleSpaceRuns(t: string)
    requires t == "poc1_web  running"
    ensures RunEnd(t, 5, Word) == 8 && RunEnd(t, 8, Space) == 10 && RunEnd(t, 9, Space) == 10
    ensures forall k :: 10 <= k < |t| ==> !IsSpace(t[k])
    ensures OccursAt(t, "running", 10)
  {
    assert t[10..] == "running";
    RunEndUnique(t, 5, 8, Word);
    RunEndUnique(t, 8, 10, Space);
    RunEndUnique(t, 9, 10, Space);
  }

  lemma NewlineGapState(t: string)
    requires t == "poc1_web \n running"
    ensures forall k :: 11 <= k < |t| ==> !IsSpace(t[k])
    ensures OccursAt(t, "running", 11)
  {
    assert t[11..] == "running";
  }
}
