/**
 * The decisions of the summary report, with its text layout abstracted away:
 * which sections appear, the overall verdict, the icon of each container, how
 * many entries of each list are shown and whether a "... and N more" line
 * follows. Each line of the report is a `Line`; fixed text (banners, rules,
 * titles, the endpoint lines) is `Fixed`.
 */
module Report {
  import opened Text
  import opened Containers
  import C = Classifier

  /** The overall verdict of the run. */
  datatype Status = Failed | Passed | Unknown

  /** The four listed categories, in the order the report shows them. */
  datatype Section = PassedChecks | FailedChecks | Warnings | Errors

  datatype Line =
    | Fixed
    | Blank
    | Timestamp
      /** The status line and its explanation; `count` is the number of failures, of passed
          checks, or 0 when nothing was found. */
    | Verdict(status: Status, count: nat)
      /** One container: `ok` is whether the success icon is shown. */
    | ContainerRow(ok: bool, name: string, state: string)
    | SectionTitle(section: Section, count: nat)
    | Entry(section: Section, text: string)
      /** "... and `count` more" after a truncated list. */
    | More(section: Section, count: nat)
      /** One recommendation; `afterFailure` tells the two sets of advice apart. */
    | Advice(afterFailure: bool, step: nat)

  /** The most entries shown for passed checks and for errors. */
  const PassedShown: nat := 10
  const ErrorsShown: nat := 5

  /** Failures take precedence over passes; with neither, the status is unknown. */
  function OverallStatus(failed: seq<string>, passed: seq<string>): Status {
    if failed != [] then Failed else if passed != [] then Passed else Unknown
  }

  function VerdictCount(failed: seq<string>, passed: seq<string>): nat {
    if failed != [] then |failed| else if passed != [] then |passed| else 0
  }

  /** Whether a container row shows the success icon. */
  predicate Healthy(state: string) {
    state == "running"
  }

  function Banner(): seq<Line> {
    [Fixed, Fixed, Fixed, Timestamp, Blank]
  }

  function StatusBlock(failed: seq<string>, passed: seq<string>): seq<Line> {
    [Fixed, Fixed, Verdict(OverallStatus(failed, passed), VerdictCount(failed, passed)), Blank]
  }

  /** One row per container, in the dictionary's insertion order. */
  function ContainerRows(d: Dict): (rows: seq<Line>)
    requires WellFormed(d)
    ensures |rows| == |d.order|
  {
    seq(|d.order|, i requires 0 <= i < |d.order| =>
      var state := d.states[d.order[i]];
      ContainerRow(Healthy(state), d.order[i], state))
  }

  /** One row per key, in insertion order, with the key's state and the success icon exactly
      when that state is `running`. */
  lemma ContainerRowsOrder(d: Dict)
    requires WellFormed(d)
    ensures forall i :: 0 <= i < |d.order| ==>
      var row := ContainerRows(d)[i];
      && row.ContainerRow? && row.name == d.order[i] && row.state == d.states[d.order[i]]
      && (row.ok <==> row.state == "running")
  {
  }

  function ContainerBlock(d: Dict): seq<Line>
    requires WellFormed(d)
  {
    if d.order == [] then [] else [Fixed, Fixed] + ContainerRows(d) + [Blank]
  }

  /** One entry line per item, in order. */
  function Entries(sec: Section, items: seq<string>): (r: seq<Line>)
    ensures |r| == |items|
  {
    seq(|items|, i requires 0 <= i < |items| => Entry(sec, items[i]))
  }

  /** A listed section: absent when empty, otherwise its title, at most `cap` entries, and a
      count of the rest when some were left out. */
  function Listing(sec: Section, items: seq<string>, cap: nat): seq<Line> {
    if items == [] then []
    else
      [SectionTitle(sec, |items|), Fixed]
      + Entries(sec, items[..Min(cap, |items|)])
      + (if |items| > cap then [More(sec, |items| - cap)] else [])
      + [Blank]
  }

  function Endpoints(): seq<Line> {
    [Fixed, Fixed, Fixed, Fixed, Blank]
  }

  /** The numbered recommendations: four steps after a failure, three otherwise. */
  function Steps(anyFailed: bool): seq<Line> {
    if anyFailed then [Advice(true, 1), Advice(true, 2), Advice(true, 3), Advice(true, 4)]
    else [Advice(false, 1), Advice(false, 2), Advice(false, 3)]
  }

  function Recommendations(anyFailed: bool): seq<Line> {
    [Fixed, Fixed] + Steps(anyFailed) + [Blank]
  }

  function Footer(): seq<Line> {
    [Fixed, Fixed, Fixed]
  }

  /** The lines before the listed sections: banner, verdict and containers. */
  function Head(failed: seq<string>, passed: seq<string>, d: Dict): seq<Line>
    requires WellFormed(d)
  {
    Banner() + StatusBlock(failed, passed) + ContainerBlock(d)
  }

  /** The four listed sections, in report order. */
  function Lists(passed: seq<string>, failed: seq<string>, warnings: seq<string>,
                 errors: seq<string>): seq<Line> {
    Listing(PassedChecks, passed, PassedShown)
    + Listing(FailedChecks, failed, |failed|)
    + Listing(Warnings, warnings, |warnings|)
    + Listing(Errors, errors, ErrorsShown)
  }

  /** The lines after the listed sections: endpoints, advice and footer. */
  function Tail(anyFailed: bool): seq<Line> {
    Endpoints() + Recommendations(anyFailed) + Footer()
  }

  /** The report as a whole, from the four lists and the container dictionary. */
  function ReportLines(passed: seq<string>, failed: seq<string>, warnings: seq<string>,
                       errors: seq<string>, d: Dict): seq<Line>
    requires WellFormed(d)
  {
    Head(failed, passed, d) + Lists(passed, failed, warnings, errors) + Tail(failed != [])
  }

  /** Kinds of line picked out of a report to state facts about them. */
  datatype Pick = EntriesIn(Section) | MoreIn(Section) | Titles | Rows | Verdicts | Advices

  predicate Picks(p: Pick, l: Line) {
    match p
    case EntriesIn(sec) => l.Entry? && l.section == sec
    case MoreIn(sec) => l.More? && l.section == sec
    case Titles => l.SectionTitle?
    case Rows => l.ContainerRow?
    case Verdicts => l.Verdict?
    case Advices => l.Advice?
  }

  /** The lines of kind `p`, in report order. */
  function Only(lines: seq<Line>, p: Pick): (r: seq<Line>)
    ensures |r| <= |lines|
  {
    if lines == [] then []
    else (if Picks(p, lines[0]) then [lines[0]] else []) + Only(lines[1..], p)
  }

  lemma {:induction false} OnlyAppend(a: seq<Line>, b: seq<Line>, p: Pick)
    ensures Only(a + b, p) == Only(a, p) + Only(b, p)
  {
    if a == [] {
      assert a + b == b;
    } else {
      var head := if Picks(p, a[0]) then [a[0]] else [];
      assert (a + b)[0] == a[0];
      assert (a + b)[1..] == a[1..] + b;
      assert Only(a + b, p) == head + Only(a[1..] + b, p);
      OnlyAppend(a[1..], b, p);
      AppendAssoc(head, Only(a[1..], p), Only(b, p));
    }
  }

  /** A single line is kept exactly when it is of kind `p`. */
  lemma OnlySingle(l: Line, p: Pick)
    ensures Only([l], p) == if Picks(p, l) then [l] else []
  {
    assert [l][1..] == [];
  }

  /** Picking from four runs of lines one after the other. */
  lemma OnlyFour(a: seq<Line>, b: seq<Line>, c: seq<Line>, e: seq<Line>, p: Pick)
    ensures Only(a + b + c + e, p) == Only(a, p) + Only(b, p) + Only(c, p) + Only(e, p)
  {
    OnlyAppend(a + b + c, e, p);
    OnlyAppend(a + b, c, p);
    OnlyAppend(a, b, p);
  }

  /** Lines none of which is of kind `p` contribute nothing. */
  lemma {:induction false} OnlyNone(lines: seq<Line>, p: Pick)
    requires forall i :: 0 <= i < |lines| ==> !Picks(p, lines[i])
    ensures Only(lines, p) == []
  {
    if lines != [] {
      OnlyNone(lines[1..], p);
    }
  }

  /** Lines all of which are of kind `p` are kept whole. */
  lemma {:induction false} OnlyAll(lines: seq<Line>, p: Pick)
    requires forall i :: 0 <= i < |lines| ==> Picks(p, lines[i])
    ensures Only(lines, p) == lines
  {
    if lines != [] {
      OnlyAll(lines[1..], p);
      assert [lines[0]] + lines[1..] == lines;
    }
  }

  /** A non-empty listed section: title and rule, the shown entries, the "more" line if any,
      and a blank line. */
  lemma ListingShape(sec: Section, items: seq<string>, cap: nat)
    requires items != []
    ensures Listing(sec, items, cap) ==
      [SectionTitle(sec, |items|), Fixed] + Entries(sec, items[..Min(cap, |items|)])
      + (if |items| > cap then [More(sec, |items| - cap)] else []) + [Blank]
  {
  }

  /** The picked lines of a non-empty listed section come from its title, its entries and
      its "more" line. */
  lemma ListingParts(sec: Section, items: seq<string>, cap: nat, p: Pick)
    requires items != []
    ensures Only(Listing(sec, items, cap), p) ==
      Only([SectionTitle(sec, |items|)], p)
      + Only(Entries(sec, items[..Min(cap, |items|)]), p)
      + Only(if |items| > cap then [More(sec, |items| - cap)] else [], p)
  {
    var title := [SectionTitle(sec, |items|)];
    var head := [SectionTitle(sec, |items|), Fixed];
    var body := Entries(sec, items[..Min(cap, |items|)]);
    var more := if |items| > cap then [More(sec, |items| - cap)] else [];
    calc {
      Only(Listing(sec, items, cap), p);
      { ListingShape(sec, items, cap); }
      Only(head + body + more + [Blank], p);
      { OnlyFour(head, body, more, [Blank], p); }
      Only(head, p) + Only(body, p) + Only(more, p) + Only([Blank], p);
      { OnlySingle(Blank, p); }
      Only(head, p) + Only(body, p) + Only(more, p);
      { assert head == title + [Fixed]; OnlyAppend(title, [Fixed], p); OnlySingle(Fixed, p); }
      Only(title, p) + Only(body, p) + Only(more, p);
    }
  }

  /** Entry lines of one section, all kept or all dropped. */
  lemma EntriesPicks(sec: Section, items: seq<string>, p: Pick)
    ensures Only(Entries(sec, items), p) == if p == EntriesIn(sec) then Entries(sec, items) else []
  {
    if p == EntriesIn(sec) {
      OnlyAll(Entries(sec, items), p);
    } else {
      OnlyNone(Entries(sec, items), p);
    }
  }

  /** What a listed section contributes of each kind of line. */
  lemma ListingPicks(sec: Section, items: seq<string>, cap: nat, p: Pick)
    ensures Only(Listing(sec, items, cap), p) ==
      (if p == Titles && items != [] then [SectionTitle(sec, |items|)] else [])
      + (if p == EntriesIn(sec) then Entries(sec, items[..Min(cap, |items|)]) else [])
      + (if p == MoreIn(sec) && |items| > cap then [More(sec, |items| - cap)] else [])
  {
    if items != [] {
      ListingParts(sec, items, cap, p);
      EntriesPicks(sec, items[..Min(cap, |items|)], p);
      if p == Titles {
        OnlyAll([SectionTitle(sec, |items|)], p);
      } else {
        OnlyNone([SectionTitle(sec, |items|)], p);
      }
      if p == MoreIn(sec) && |items| > cap {
        OnlyAll([More(sec, |items| - cap)], p);
      } else if |items| > cap {
        OnlyNone([More(sec, |items| - cap)], p);
      }
    }
  }

  /** A listed section has one title when non-empty and none otherwise. */
  lemma ListingTitle(sec: Section, items: seq<string>, cap: nat)
    ensures Only(Listing(sec, items, cap), Titles) == if items == [] then [] else [SectionTitle(sec, |items|)]
  {
    ListingPicks(sec, items, cap, Titles);
  }

  /** A listed section holds no verdict, container row or advice. */
  lemma ListingOther(sec: Section, items: seq<string>, cap: nat, p: Pick)
    requires p == Verdicts || p == Rows || p == Advices
    ensures Only(Listing(sec, items, cap), p) == []
  {
    ListingPicks(sec, items, cap, p);
  }

  /** The container block contributes its rows and nothing else that is picked out. */
  lemma ContainerBlockPicks(d: Dict, p: Pick)
    requires WellFormed(d)
    ensures Only(ContainerBlock(d), p) == if p == Rows then ContainerRows(d) else []
  {
    if d.order != [] {
      var rows := ContainerRows(d);
      OnlyAppend([Fixed, Fixed] + rows, [Blank], p);
      OnlyAppend([Fixed, Fixed], rows, p);
      OnlyNone([Blank], p);
      OnlyNone([Fixed, Fixed], p);
      if p == Rows {
        OnlyAll(rows, p);
      } else {
        OnlyNone(rows, p);
      }
    } else {
      assert ContainerRows(d) == [];
    }
  }

  /** The status block contributes its verdict and nothing else that is picked out. */
  lemma StatusBlockPicks(failed: seq<string>, passed: seq<string>, p: Pick)
    ensures Only(StatusBlock(failed, passed), p) ==
      if p == Verdicts then [Verdict(OverallStatus(failed, passed), VerdictCount(failed, passed))] else []
  {
    var v := Verdict(OverallStatus(failed, passed), VerdictCount(failed, passed));
    assert StatusBlock(failed, passed) == [Fixed, Fixed] + ([v] + [Blank]);
    assert Only([v], p) == if p == Verdicts then [v] else [] by {
      if p == Verdicts { OnlyAll([v], p); } else { OnlyNone([v], p); }
    }
    OnlyAppend([Fixed, Fixed], [v] + [Blank], p);
    OnlyAppend([v], [Blank], p);
    OnlyNone([Fixed, Fixed], p);
    OnlyNone([Blank], p);
  }

  /** The lines before the listed sections: banner, verdict and containers. */
  lemma HeadPicks(failed: seq<string>, passed: seq<string>, d: Dict, p: Pick)
    requires WellFormed(d)
    ensures Only(Head(failed, passed, d), p) ==
      (if p == Verdicts then [Verdict(OverallStatus(failed, passed), VerdictCount(failed, passed))] else [])
      + (if p == Rows then ContainerRows(d) else [])
  {
    var banner := Banner();
    var status := StatusBlock(failed, passed);
    var block := ContainerBlock(d);
    assert Only(banner, p) == [] by { OnlyNone(banner, p); }
    StatusBlockPicks(failed, passed, p);
    ContainerBlockPicks(d, p);
    OnlyAppend(banner + status, block, p);
    OnlyAppend(banner, status, p);
  }

  /** The numbered steps are all advice. */
  lemma StepsPicks(anyFailed: bool, p: Pick)
    ensures Only(Steps(anyFailed), p) == if p == Advices then Steps(anyFailed) else []
  {
    if p == Advices {
      OnlyAll(Steps(anyFailed), p);
    } else {
      OnlyNone(Steps(anyFailed), p);
    }
  }

  /** The recommendations contribute their steps and nothing else that is picked out. */
  lemma RecommendationsPicks(anyFailed: bool, p: Pick)
    ensures Only(Recommendations(anyFailed), p) == if p == Advices then Steps(anyFailed) else []
  {
    var steps := Steps(anyFailed);
    calc {
      Only(Recommendations(anyFailed), p);
      Only([Fixed, Fixed] + steps + [Blank], p);
      { OnlyAppend([Fixed, Fixed] + steps, [Blank], p); }
      Only([Fixed, Fixed] + steps, p) + Only([Blank], p);
      { OnlyAppend([Fixed, Fixed], steps, p); OnlyNone([Fixed, Fixed], p); OnlyNone([Blank], p); }
      Only(steps, p);
      { StepsPicks(anyFailed, p); }
      if p == Advices then steps else [];
    }
  }

  /** The lines after the listed sections: endpoints, advice and footer. */
  lemma TailPicks(anyFailed: bool, p: Pick)
    ensures Only(Tail(anyFailed), p) == if p == Advices then Steps(anyFailed) else []
  {
    var endpoints := Endpoints();
    var advice := Recommendations(anyFailed);
    var footer := Footer();
    calc {
      Only(Tail(anyFailed), p);
      Only(endpoints + advice + footer, p);
      { OnlyAppend(endpoints + advice, footer, p); }
      Only(endpoints + advice, p) + Only(footer, p);
      { OnlyAppend(endpoints, advice, p); OnlyNone(endpoints, p); OnlyNone(footer, p); }
      Only(advice, p);
      { RecommendationsPicks(anyFailed, p); }
      if p == Advices then Steps(anyFailed) else [];
    }
  }

  lemma ReportSplit(passed: seq<string>, failed: seq<string>, warnings: seq<string>,
                    errors: seq<string>, d: Dict, p: Pick)
    requires WellFormed(d)
    ensures Only(ReportLines(passed, failed, warnings, errors, d), p) ==
      Only(Head(failed, passed, d), p)
      + Only(Lists(passed, failed, warnings, errors), p)
      + Only(Tail(failed != []), p)
  {
    var head := Head(failed, passed, d);
    var lists := Lists(passed, failed, warnings, errors);
    OnlyAppend(head + lists, Tail(failed != []), p);
    OnlyAppend(head, lists, p);
  }

  lemma ListsPicks(passed: seq<string>, failed: seq<string>, warnings: seq<string>,
                   errors: seq<string>, p: Pick)
    ensures Only(Lists(passed, failed, warnings, errors), p) ==
      Only(Listing(PassedChecks, passed, PassedShown), p)
      + Only(Listing(FailedChecks, failed, |failed|), p)
      + Only(Listing(Warnings, warnings, |warnings|), p)
      + Only(Listing(Errors, errors, ErrorsShown), p)
  {
    var a := Listing(PassedChecks, passed, PassedShown);
    var b := Listing(FailedChecks, failed, |failed|);
    var c := Listing(Warnings, warnings, |warnings|);
    var e := Listing(Errors, errors, ErrorsShown);
    OnlyFour(a, b, c, e, p);
  }

  /** Entries, "more" lines and titles all come from the listed sections. */
  lemma ListsOnly(passed: seq<string>, failed: seq<string>, warnings: seq<string>,
                  errors: seq<string>, d: Dict, p: Pick)
    requires WellFormed(d)
    requires p.EntriesIn? || p.MoreIn? || p == Titles
    ensures Only(ReportLines(passed, failed, warnings, errors, d), p) == Only(Lists(passed, failed, warnings, errors), p)
  {
    ReportSplit(passed, failed, warnings, errors, d, p);
    HeadPicks(failed, passed, d, p);
    TailPicks(failed != [], p);
  }

  /** Only a section's own listing holds its entries and its "more" line. */
  lemma OwnListing(passed: seq<string>, failed: seq<string>, warnings: seq<string>,
                   errors: seq<string>, sec: Section, p: Pick)
    requires p == EntriesIn(sec) || p == MoreIn(sec)
    ensures Only(Lists(passed, failed, warnings, errors), p) ==
      match sec
      case PassedChecks => Only(Listing(PassedChecks, passed, PassedShown), p)
      case FailedChecks => Only(Listing(FailedChecks, failed, |failed|), p)
      case Warnings => Only(Listing(Warnings, warnings, |warnings|), p)
      case Errors => Only(Listing(Errors, errors, ErrorsShown), p)
  {
    ListsPicks(passed, failed, warnings, errors, p);
    ListingPicks(PassedChecks, passed, PassedShown, p);
    ListingPicks(FailedChecks, failed, |failed|, p);
    ListingPicks(Warnings, warnings, |warnings|, p);
    ListingPicks(Errors, errors, ErrorsShown, p);
  }

  /** The entries and the "more" line of one section, over the whole report. */
  lemma Shown(passed: seq<string>, failed: seq<string>, warnings: seq<string>,
              errors: seq<string>, d: Dict, sec: Section, items: seq<string>, cap: nat)
    requires WellFormed(d)
    requires match sec
      case PassedChecks => items == passed && cap == PassedShown
      case FailedChecks => items == failed && cap == |failed|
      case Warnings => items == warnings && cap == |warnings|
      case Errors => items == errors && cap == ErrorsShown
    ensures Only(ReportLines(passed, failed, warnings, errors, d), EntriesIn(sec))
            == Entries(sec, items[..Min(cap, |items|)])
    ensures Only(ReportLines(passed, failed, warnings, errors, d), MoreIn(sec))
            == if |items| > cap then [More(sec, |items| - cap)] else []
  {
    assert Only(ReportLines(passed, failed, warnings, errors, d), EntriesIn(sec))
           == Only(Listing(sec, items, cap), EntriesIn(sec)) by {
      ListsOnly(passed, failed, warnings, errors, d, EntriesIn(sec));
      OwnListing(passed, failed, warnings, errors, sec, EntriesIn(sec));
    }
    assert Only(ReportLines(passed, failed, warnings, errors, d), MoreIn(sec))
           == Only(Listing(sec, items, cap), MoreIn(sec)) by {
      ListsOnly(passed, failed, warnings, errors, d, MoreIn(sec));
      OwnListing(passed, failed, warnings, errors, sec, MoreIn(sec));
    }
    ListingPicks(sec, items, cap, EntriesIn(sec));
    ListingPicks(sec, items, cap, MoreIn(sec));
  }

  /** Passed checks: the first ten are shown, followed by "... and n-10 more" exactly when
      there are more than ten. */
  lemma PassedTruncation(passed: seq<string>, failed: seq<string>, warnings: seq<string>,
                         errors: seq<string>, d: Dict)
    requires WellFormed(d)
    ensures Only(ReportLines(passed, failed, warnings, errors, d), EntriesIn(PassedChecks))
            == Entries(PassedChecks, passed[..Min(10, |passed|)])
    ensures |Only(ReportLines(passed, failed, warnings, errors, d), EntriesIn(PassedChecks))| == Min(10, |passed|)
    ensures Only(ReportLines(passed, failed, warnings, errors, d), MoreIn(PassedChecks))
            == if |passed| > 10 then [More(PassedChecks, |passed| - 10)] else []
  {
    Shown(passed, failed, warnings, errors, d, PassedChecks, passed, PassedShown);
  }

  /** Errors: the first five are shown, followed by "... and m-5 more errors" exactly when
      there are more than five. */
  lemma ErrorTruncation(passed: seq<string>, failed: seq<string>, warnings: seq<string>,
                        errors: seq<string>, d: Dict)
    requires WellFormed(d)
    ensures Only(ReportLines(passed, failed, warnings, errors, d), EntriesIn(Errors))
            == Entries(Errors, errors[..Min(5, |errors|)])
    ensures |Only(ReportLines(passed, failed, warnings, errors, d), EntriesIn(Errors))| == Min(5, |errors|)
    ensures Only(ReportLines(passed, failed, warnings, errors, d), MoreIn(Errors))
            == if |errors| > 5 then [More(Errors, |errors| - 5)] else []
  {
    Shown(passed, failed, warnings, errors, d, Errors, errors, ErrorsShown);
  }

  /** Failed checks and warnings are listed in full, with no "more" line. */
  lemma FullListings(passed: seq<string>, failed: seq<string>, warnings: seq<string>,
                     errors: seq<string>, d: Dict)
    requires WellFormed(d)
    ensures Only(ReportLines(passed, failed, warnings, errors, d), EntriesIn(FailedChecks))
            == Entries(FailedChecks, failed)
    ensures Only(ReportLines(passed, failed, warnings, errors, d), EntriesIn(Warnings))
            == Entries(Warnings, warnings)
    ensures Only(ReportLines(passed, failed, warnings, errors, d), MoreIn(FailedChecks)) == []
    ensures Only(ReportLines(passed, failed, warnings, errors, d), MoreIn(Warnings)) == []
  {
    Shown(passed, failed, warnings, errors, d, FailedChecks, failed, |failed|);
    Shown(passed, failed, warnings, errors, d, Warnings, warnings, |warnings|);
    assert failed[..|failed|] == failed;
    assert warnings[..|warnings|] == warnings;
  }

  /** A section title appears exactly for each non-empty list, in the order passed, failed,
      warnings, errors, carrying the full size of the list. */
  lemma SectionTitles(passed: seq<string>, failed: seq<string>, warnings: seq<string>,
                      errors: seq<string>, d: Dict)
    requires WellFormed(d)
    ensures Only(ReportLines(passed, failed, warnings, errors, d), Titles) ==
      (if passed == [] then [] else [SectionTitle(PassedChecks, |passed|)])
      + (if failed == [] then [] else [SectionTitle(FailedChecks, |failed|)])
      + (if warnings == [] then [] else [SectionTitle(Warnings, |warnings|)])
      + (if errors == [] then [] else [SectionTitle(Errors, |errors|)])
  {
    ListsOnly(passed, failed, warnings, errors, d, Titles);
    ListsPicks(passed, failed, warnings, errors, Titles);
    ListingTitle(PassedChecks, passed, PassedShown);
    ListingTitle(FailedChecks, failed, |failed|);
    ListingTitle(Warnings, warnings, |warnings|);
    ListingTitle(Errors, errors, ErrorsShown);
  }

  /** The listed sections hold no verdict, container row or advice. */
  lemma ListsOther(passed: seq<string>, failed: seq<string>, warnings: seq<string>,
                   errors: seq<string>, p: Pick)
    requires p == Verdicts || p == Rows || p == Advices
    ensures Only(Lists(passed, failed, warnings, errors), p) == []
  {
    ListsPicks(passed, failed, warnings, errors, p);
    ListingOther(PassedChecks, passed, PassedShown, p);
    ListingOther(FailedChecks, failed, |failed|, p);
    ListingOther(Warnings, warnings, |warnings|, p);
    ListingOther(Errors, errors, ErrorsShown, p);
  }

  /** Verdicts, container rows and advice come from outside the listed sections. */
  lemma OutsideLists(passed: seq<string>, failed: seq<string>, warnings: seq<string>,
                     errors: seq<string>, d: Dict, p: Pick)
    requires WellFormed(d)
    requires p == Verdicts || p == Rows || p == Advices
    ensures Only(ReportLines(passed, failed, warnings, errors, d), p) ==
      Only(Head(failed, passed, d), p) + Only(Tail(failed != []), p)
  {
    var head := Head(failed, passed, d);
    var lists := Lists(passed, failed, warnings, errors);
    var tail := Tail(failed != []);
    assert Only(lists, p) == [] by {
      ListsOther(passed, failed, warnings, errors, p);
    }
    OnlyAppend(head + lists, tail, p);
    OnlyAppend(head, lists, p);
  }

  /** The report carries exactly one verdict: failed when any check failed, else passed when
      any check passed, else unknown, with the matching count. */
  lemma ReportVerdict(passed: seq<string>, failed: seq<string>, warnings: seq<string>,
                      errors: seq<string>, d: Dict)
    requires WellFormed(d)
    ensures Only(ReportLines(passed, failed, warnings, errors, d), Verdicts) ==
      [Verdict(OverallStatus(failed, passed), VerdictCount(failed, passed))]
    ensures OverallStatus(failed, passed) == Failed <==> failed != []
    ensures OverallStatus(failed, passed) == Passed <==> failed == [] && passed != []
    ensures OverallStatus(failed, passed) == Unknown <==> failed == [] && passed == []
    ensures failed != [] ==> VerdictCount(failed, passed) == |failed|
    ensures failed == [] && passed != [] ==> VerdictCount(failed, passed) == |passed|
  {
    OutsideLists(passed, failed, warnings, errors, d, Verdicts);
    HeadPicks(failed, passed, d, Verdicts);
    TailPicks(failed != [], Verdicts);
  }

  /** Every container row shows the success icon exactly when its state is `running`. */
  lemma RowsHealthy(d: Dict, l: Line)
    requires WellFormed(d)
    requires l in ContainerRows(d)
    ensures l.ContainerRow? && (l.ok <==> l.state == "running")
  {
    var i :| 0 <= i < |ContainerRows(d)| && ContainerRows(d)[i] == l;
  }

  /** The container rows list every container once, in insertion order, and a row shows the
      success icon exactly when its state is `running`. */
  lemma ReportContainers(passed: seq<string>, failed: seq<string>, warnings: seq<string>,
                         errors: seq<string>, d: Dict)
    requires WellFormed(d)
    ensures |Only(ReportLines(passed, failed, warnings, errors, d), Rows)| == |d.order|
    ensures forall i :: 0 <= i < |d.order| ==>
      var row := Only(ReportLines(passed, failed, warnings, errors, d), Rows)[i];
      row.ContainerRow? && row.name == d.order[i] && row.state == d.states[d.order[i]]
    ensures forall l :: l in ReportLines(passed, failed, warnings, errors, d) && l.ContainerRow? ==>
      (l.ok <==> l.state == "running")
  {
    var lines := ReportLines(passed, failed, warnings, errors, d);
    assert Only(lines, Rows) == ContainerRows(d) by {
      OutsideLists(passed, failed, warnings, errors, d, Rows);
      HeadPicks(failed, passed, d, Rows);
      TailPicks(failed != [], Rows);
    }
    forall l | l in lines && l.ContainerRow? ensures l.ok <==> l.state == "running" {
      OnlyKeeps(lines, Rows, l);
      RowsHealthy(d, l);
    }
  }

  /** A line of kind `p` in the report is among the picked lines. */
  lemma {:induction false} OnlyKeeps(lines: seq<Line>, p: Pick, l: Line)
    requires l in lines && Picks(p, l)
    ensures l in Only(lines, p)
  {
    if lines[0] != l {
      assert l in lines[1..];
      OnlyKeeps(lines[1..], p, l);
    }
  }

  /** The container section is present exactly when some container was detected. */
  lemma ContainerSectionPresent(d: Dict)
    requires WellFormed(d)
    ensures ContainerBlock(d) == [] <==> d.states == map[]
  {
    if d.order != [] {
      assert d.order[0] in d.states;
    }
  }

  /** The steps of advice: four, all marked as after a failure, or three, none so marked. */
  lemma StepsShape(anyFailed: bool)
    ensures |Steps(anyFailed)| == if anyFailed then 4 else 3
    ensures forall l :: l in Steps(anyFailed) ==> l.Advice? && l.afterFailure == anyFailed
  {
  }

  /** The recommendations are the four steps for a failure exactly when a check failed. */
  lemma ReportAdvice(passed: seq<string>, failed: seq<string>, warnings: seq<string>,
                     errors: seq<string>, d: Dict)
    requires WellFormed(d)
    ensures |Only(ReportLines(passed, failed, warnings, errors, d), Advices)| == if failed != [] then 4 else 3
    ensures forall l :: l in Only(ReportLines(passed, failed, warnings, errors, d), Advices) ==>
      l.Advice? && (l.afterFailure <==> failed != [])
  {
    assert Only(ReportLines(passed, failed, warnings, errors, d), Advices) == Steps(failed != []) by {
      OutsideLists(passed, failed, warnings, errors, d, Advices);
      HeadPicks(failed, passed, d, Advices);
      TailPicks(failed != [], Advices);
    }
    StepsShape(failed != []);
  }

  /** The verdict computed from a log: failed exactly when some cleaned line is a failed check,
      passed exactly when none is but some line is a passed check. */
  lemma StatusFromLog(text: string)
    ensures OverallStatus(C.Classified(text, C.Failed), C.Classified(text, C.Passed)) == Failed
            <==> exists i :: 0 <= i < |C.CleanLines(text)| && C.IsFailedLine(C.CleanLines(text)[i])
    ensures OverallStatus(C.Classified(text, C.Failed), C.Classified(text, C.Passed)) == Passed
            <==> (forall i :: 0 <= i < |C.CleanLines(text)| ==> !C.IsFailedLine(C.CleanLines(text)[i]))
                 && exists i :: 0 <= i < |C.CleanLines(text)| && C.IsPassedLine(C.CleanLines(text)[i])
  {
    C.BucketEmpty(C.CleanLines(text), C.Failed);
    C.BucketEmpty(C.CleanLines(text), C.Passed);
  }
}
