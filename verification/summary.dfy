/**
 * The summary generator object: it holds the log text and four lists that
 * `ParseLogs` appends to, extracts the container table, and assembles the
 * report line by line. Each method is proved against the specification
 * functions of the modules it uses.
 */
module Summary {
  import opened Wrappers
  import opened Text
  import opened Ansi
  import opened Classifier
  import opened Containers
  import opened Report

  class SummaryGenerator {
    var logContent: string
    var errors: seq<string>
    var warnings: seq<string>
    var passedChecks: seq<string>
    var failedChecks: seq<string>

    /** `contents` is what reading the log file produced: `None` when no file was named or it
        does not exist, in which case the log is empty. */
    constructor (contents: Option<string>)
      ensures logContent == (if contents.Some? then contents.value else "")
      ensures errors == [] && warnings == [] && passedChecks == [] && failedChecks == []
    {
      logContent := if contents.Some? then contents.value else "";
      errors := [];
      warnings := [];
      passedChecks := [];
      failedChecks := [];
    }

    /** Classifies every line of the log and appends it, trimmed, to each matching list.
        The lists are not cleared first. */
    method ParseLogs()
      modifies this
      ensures logContent == old(logContent)
      ensures passedChecks == old(passedChecks) + Classified(logContent, Kind.Passed)
      ensures failedChecks == old(failedChecks) + Classified(logContent, Kind.Failed)
      ensures warnings == old(warnings) + Classified(logContent, Kind.Warning)
      ensures errors == old(errors) + Classified(logContent, Kind.Error)
    {
      var lines := SplitLines(logContent);
      ghost var cs := CleanLines(logContent);
      ghost var passed0, failed0, warnings0, errors0 := passedChecks, failedChecks, warnings, errors;
      var i := 0;
      while i < |lines|
        invariant 0 <= i <= |lines| == |cs|
        invariant logContent == old(logContent)
        invariant passedChecks == passed0 + Bucket(cs[..i], Kind.Passed)
        invariant failedChecks == failed0 + Bucket(cs[..i], Kind.Failed)
        invariant warnings == warnings0 + Bucket(cs[..i], Kind.Warning)
        invariant errors == errors0 + Bucket(cs[..i], Kind.Error)
      {
        var cleanLine := StripAnsi(lines[i]);
        assert cs[..i + 1] == cs[..i] + [cleanLine] by {
          assert cleanLine == cs[i];
        }
        LineStep(passed0, cs[..i], cleanLine, Kind.Passed);
        LineStep(failed0, cs[..i], cleanLine, Kind.Failed);
        LineStep(warnings0, cs[..i], cleanLine, Kind.Warning);
        LineStep(errors0, cs[..i], cleanLine, Kind.Error);
        ClassifyLine(cleanLine);
        i := i + 1;
      }
      assert cs[..i] == cs;
    }

    /** The body of the parsing loop for one cleaned line: the trimmed line is appended to
        every list whose rule the untrimmed line satisfies. */
    method ClassifyLine(cleanLine: string)
      modifies this
      ensures logContent == old(logContent)
      ensures passedChecks == old(passedChecks) + (if Matches(Kind.Passed, cleanLine) then [Strip(cleanLine)] else [])
      ensures failedChecks == old(failedChecks) + (if Matches(Kind.Failed, cleanLine) then [Strip(cleanLine)] else [])
      ensures warnings == old(warnings) + (if Matches(Kind.Warning, cleanLine) then [Strip(cleanLine)] else [])
      ensures errors == old(errors) + (if Matches(Kind.Error, cleanLine) then [Strip(cleanLine)] else [])
    {
      assert Matches(Kind.Passed, cleanLine) == IsPassedLine(cleanLine);
      assert Matches(Kind.Failed, cleanLine) == IsFailedLine(cleanLine);
      assert Matches(Kind.Warning, cleanLine) == IsWarningLine(cleanLine);
      assert Matches(Kind.Error, cleanLine) == IsErrorLine(cleanLine);
      if IsPassedLine(cleanLine) {
        passedChecks := passedChecks + [Strip(cleanLine)];
      }
      if IsFailedLine(cleanLine) {
        failedChecks := failedChecks + [Strip(cleanLine)];
      }
      if IsWarningLine(cleanLine) {
        warnings := warnings + [Strip(cleanLine)];
      }
      if IsErrorLine(cleanLine) {
        errors := errors + [Strip(cleanLine)];
      }
    }

    /** The containers named in the log, each with the state of its last match. */
    method DetectContainerStatus() returns (containers: Dict)
      ensures containers == ContainerTable(logContent)
      ensures WellFormed(containers)
    {
      containers := EmptyDict;
      var matches := Scan(Lower(logContent), 0);
      var i := 0;
      while i < |matches|
        invariant 0 <= i <= |matches|
        invariant WellFormed(containers)
        invariant Record(containers, matches[i..]) == ContainerTable(logContent)
      {
        var m := matches[i];
        assert matches[i..][1..] == matches[i + 1..];
        PutWellFormed(containers, m.name, m.state);
        containers := Put(containers, m.name, m.state);
        i := i + 1;
      }
    }

    /** Parses the log (appending to the lists once more) and builds the report. */
    method GenerateReport() returns (report: seq<Line>)
      modifies this
      ensures logContent == old(logContent)
      ensures passedChecks == old(passedChecks) + Classified(logContent, Kind.Passed)
      ensures failedChecks == old(failedChecks) + Classified(logContent, Kind.Failed)
      ensures warnings == old(warnings) + Classified(logContent, Kind.Warning)
      ensures errors == old(errors) + Classified(logContent, Kind.Error)
      ensures WellFormed(ContainerTable(logContent))
      ensures report == ReportLines(passedChecks, failedChecks, warnings, errors, ContainerTable(logContent))
    {
      ParseLogs();
      report := [Fixed, Fixed, Fixed, Timestamp, Blank];
      report := AppendStatus(report, failedChecks, passedChecks);
      var containers := DetectContainerStatus();
      report := AppendContainers(report, containers);
      assert report == Head(failedChecks, passedChecks, containers);

      ghost var head := report;
      report := AppendListing(report, PassedChecks, passedChecks, PassedShown);
      ghost var lists := Listing(PassedChecks, passedChecks, PassedShown);
      report := AppendListing(report, FailedChecks, failedChecks, |failedChecks|);
      AppendAssoc(head, lists, Listing(FailedChecks, failedChecks, |failedChecks|));
      lists := lists + Listing(FailedChecks, failedChecks, |failedChecks|);
      report := AppendListing(report, Warnings, warnings, |warnings|);
      AppendAssoc(head, lists, Listing(Warnings, warnings, |warnings|));
      lists := lists + Listing(Warnings, warnings, |warnings|);
      report := AppendListing(report, Errors, errors, ErrorsShown);
      AppendAssoc(head, lists, Listing(Errors, errors, ErrorsShown));
      lists := lists + Listing(Errors, errors, ErrorsShown);

      report := AppendClosing(report, failedChecks != []);
    }
  }

  /** The overall status: failed when any check failed, else passed when any check passed,
      else unknown. */
  method AppendStatus(report: seq<Line>, failedChecks: seq<string>, passedChecks: seq<string>)
    returns (r: seq<Line>)
    ensures r == report + StatusBlock(failedChecks, passedChecks)
  {
    r := report + [Fixed, Fixed];
    if failedChecks != [] {
      r := r + [Verdict(Status.Failed, |failedChecks|)];
    } else if passedChecks != [] {
      r := r + [Verdict(Status.Passed, |passedChecks|)];
    } else {
      r := r + [Verdict(Unknown, 0)];
    }
    r := r + [Blank];
  }

  /** The endpoints, the recommendations (four steps after a failure, three otherwise) and
      the closing banner. */
  method AppendClosing(report: seq<Line>, anyFailed: bool) returns (r: seq<Line>)
    ensures r == report + Tail(anyFailed)
  {
    r := report + [Fixed, Fixed, Fixed, Fixed, Blank];
    ghost var beforeAdvice := r;
    r := r + [Fixed, Fixed];
    if anyFailed {
      r := r + [Advice(true, 1), Advice(true, 2), Advice(true, 3), Advice(true, 4)];
    } else {
      r := r + [Advice(false, 1), Advice(false, 2), Advice(false, 3)];
    }
    r := r + [Blank];
    assert r == beforeAdvice + Recommendations(anyFailed);
    AppendAssoc(report, Endpoints(), Recommendations(anyFailed));
    r := r + [Fixed, Fixed, Fixed];
    AppendAssoc(report, Endpoints() + Recommendations(anyFailed), Footer());
  }

  /** One more line for the classifier loop: a line extends each category it matches. */
  lemma BucketStep(cs: seq<string>, c: string, k: Kind)
    ensures Bucket(cs + [c], k) == Bucket(cs, k) + (if Matches(k, c) then [Strip(c)] else [])
  {
    BucketAppend(cs, [c], k);
    assert Bucket([c], k) == (if Matches(k, c) then [Strip(c)] else []) + Bucket([], k);
  }

  /** One more line for a list that started as `start`. */
  lemma LineStep(start: seq<string>, cs: seq<string>, c: string, k: Kind)
    ensures start + Bucket(cs + [c], k) == start + Bucket(cs, k) + (if Matches(k, c) then [Strip(c)] else [])
  {
    BucketStep(cs, c, k);
    AppendAssoc(start, Bucket(cs, k), if Matches(k, c) then [Strip(c)] else []);
  }

  /** The container section: a title and a row per container in insertion order, with the
      success icon exactly for `running`; nothing when no container was found. */
  method AppendContainers(report: seq<Line>, containers: Dict) returns (r: seq<Line>)
    requires WellFormed(containers)
    ensures r == report + ContainerBlock(containers)
  {
    r := report;
    if containers.order != [] {
      r := r + [Fixed, Fixed];
      var i := 0;
      while i < |containers.order|
        invariant 0 <= i <= |containers.order|
        invariant r == report + [Fixed, Fixed] + ContainerRows(containers)[..i]
      {
        var name := containers.order[i];
        var status := containers.states[name];
        var ok := status == "running";
        assert ContainerRows(containers)[..i + 1] == ContainerRows(containers)[..i] + [ContainerRow(ok, name, status)];
        r := r + [ContainerRow(ok, name, status)];
        i := i + 1;
      }
      assert ContainerRows(containers)[..i] == ContainerRows(containers);
      r := r + [Blank];
    }
  }

  /** One listed section: its title, at most `cap` entries, and a count of the rest. */
  method AppendListing(report: seq<Line>, sec: Section, items: seq<string>, cap: nat) returns (r: seq<Line>)
    ensures r == report + Listing(sec, items, cap)
  {
    r := report;
    if items != [] {
      var shown := items[..Min(cap, |items|)];
      r := r + [SectionTitle(sec, |items|), Fixed];
      ghost var top := r;
      var i := 0;
      while i < |shown|
        invariant 0 <= i <= |shown|
        invariant r == top + Entries(sec, shown[..i])
      {
        EntriesStep(sec, shown, i);
        r := r + [Entry(sec, shown[i])];
        i := i + 1;
      }
      assert shown[..i] == shown;
      ghost var more: seq<Line> := if |items| > cap then [More(sec, |items| - cap)] else [];
      if |items| > cap {
        r := r + [More(sec, |items| - cap)];
      }
      assert r == top + Entries(sec, shown) + more;
      r := r + [Blank];
      ListingShape(sec, items, cap);
      AppendFive(report, [SectionTitle(sec, |items|), Fixed], Entries(sec, shown), more, [Blank]);
    }
  }

  lemma AppendFive<T>(a: seq<T>, b: seq<T>, c: seq<T>, d: seq<T>, e: seq<T>)
    ensures a + b + c + d + e == a + (b + c + d + e)
  {
  }

  /** One more entry line for the listing loop. */
  lemma EntriesStep(sec: Section, shown: seq<string>, i: nat)
    requires i < |shown|
    ensures Entries(sec, shown[..i + 1]) == Entries(sec, shown[..i]) + [Entry(sec, shown[i])]
  {
  }

  /** A missing log file reads as the empty text: the report's verdict is UNKNOWN with no
      count, and no container row appears. */
  method ReportMissingLog() returns (report: seq<Line>)
    ensures Only(report, Verdicts) == [Verdict(Unknown, 0)]
    ensures Only(report, Rows) == []
  {
    var g := new SummaryGenerator(None);
    report := g.GenerateReport();
    EmptyLog(Kind.Passed);
    EmptyLog(Kind.Failed);
    EmptyLog(Kind.Warning);
    EmptyLog(Kind.Error);
    NoPrefixNoContainers("");
    ReportVerdict([], [], [], [], EmptyDict);
    ReportContainers([], [], [], [], EmptyDict);
  }

  /** Generating the report twice on one object: the second report lists every check, warning
      and error twice, since parsing appends to the lists kept from the first call. */
  method GenerateTwice(contents: string) returns (first: seq<Line>, second: seq<Line>)
    ensures WellFormed(ContainerTable(contents))
    ensures first == ReportLines(Classified(contents, Kind.Passed), Classified(contents, Kind.Failed),
                                 Classified(contents, Kind.Warning), Classified(contents, Kind.Error),
                                 ContainerTable(contents))
    ensures second == ReportLines(Classified(contents, Kind.Passed) + Classified(contents, Kind.Passed),
                                  Classified(contents, Kind.Failed) + Classified(contents, Kind.Failed),
                                  Classified(contents, Kind.Warning) + Classified(contents, Kind.Warning),
                                  Classified(contents, Kind.Error) + Classified(contents, Kind.Error),
                                  ContainerTable(contents))
  {
    var g := new SummaryGenerator(Some(contents));
    first := g.GenerateReport();
    assert [] + Classified(contents, Kind.Passed) == Classified(contents, Kind.Passed);
    assert [] + Classified(contents, Kind.Failed) == Classified(contents, Kind.Failed);
    assert [] + Classified(contents, Kind.Warning) == Classified(contents, Kind.Warning);
    assert [] + Classified(contents, Kind.Error) == Classified(contents, Kind.Error);
    second := g.GenerateReport();
  }
}
