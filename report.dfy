/**
 * The aggregation behind `create_critical_report`: one pass collects the error and warning
 * records, counts them per tag and per `tag: message[:50]` group; the report then shows the
 * ten most frequent groups, the ten tags with most errors, the first twenty errors with a new
 * `tag: message[:80]` headline, and the ten tags with most warnings.
 */
module CriticalReport {
  import opened Wrappers
  import opened Text
  import opened Counters
  import opened LogLine
  import opened Records

  /** Width of the message prefix that groups similar issues. */
  const GroupWidth: nat := 50
  /** Width of the message prefix that tells unique errors apart. */
  const UniqueWidth: nat := 80
  /** Entries shown in the frequency sections. */
  const TopLimit: nat := 10
  /** Entries shown in the unique-error section. */
  const UniqueLimit: nat := 20

  /** The accumulators of the collecting loop. */
  datatype Issues = Issues(
    errors: seq<LogRecord>,
    warnings: seq<LogRecord>,
    errorTags: seq<(string, nat)>,
    warningTags: seq<(string, nat)>,
    errorGroups: seq<(string, nat)>,
    warningGroups: seq<(string, nat)>)

  /** What the report file states, with the number of distinct error groups printed beside it. */
  datatype Report = Report(
    totalErrors: nat,
    totalWarnings: nat,
    frequentErrors: seq<(string, nat)>,
    errorComponents: seq<(string, nat)>,
    uniqueErrors: seq<LogRecord>,
    warningComponents: seq<(string, nat)>,
    uniqueErrorTypes: nat)

  /** The accumulators for a list of error records and a list of warning records. */
  function IssuesFrom(es: seq<LogRecord>, ws: seq<LogRecord>): Issues {
    Issues(es, ws,
      CounterOf(TagsOf(es)), CounterOf(TagsOf(ws)),
      CounterOf(Headlines(es, GroupWidth)), CounterOf(Headlines(ws, GroupWidth)))
  }

  /** The accumulators after the loop over the lines of a file. */
  function IssuesOf(lines: seq<string>): Issues {
    var rs := RecordsOf(lines);
    IssuesFrom(AtLevel(rs, Error), AtLevel(rs, Warning))
  }

  /** Counting one more issue record. */
  lemma IssueStep(es: seq<LogRecord>, r: LogRecord)
    ensures CounterOf(TagsOf(es + [r])) == Add(CounterOf(TagsOf(es)), r.tag)
    ensures CounterOf(Headlines(es + [r], GroupWidth)) == Add(CounterOf(Headlines(es, GroupWidth)), Headline(r, GroupWidth))
  {
    ProjectionsSnoc(es, r, GroupWidth);
    CounterOfSnoc(TagsOf(es), r.tag);
    CounterOfSnoc(Headlines(es, GroupWidth), Headline(r, GroupWidth));
  }

  /** The collecting loop of `create_critical_report`. */
  method CollectIssues(lines: seq<string>) returns (issues: Issues)
    ensures issues == IssuesOf(lines)
  {
    var errors, warnings: seq<LogRecord> := [], [];
    var errorTags, warningTags, errorGroups, warningGroups: seq<(string, nat)> := [], [], [], [];
    ghost var rs: seq<LogRecord> := [];
    assert lines[..0] == [];
    var i := 0;
    while i < |lines|
      invariant i <= |lines| && rs == RecordsOf(lines[..i])
      invariant errors == AtLevel(rs, Error) && warnings == AtLevel(rs, Warning)
      invariant errorTags == CounterOf(TagsOf(errors)) && warningTags == CounterOf(TagsOf(warnings))
      invariant errorGroups == CounterOf(Headlines(errors, GroupWidth))
      invariant warningGroups == CounterOf(Headlines(warnings, GroupWidth))
    {
      RecordsOfSnoc(lines, i);
      match Parse(lines[i]) {
        case None =>
        case Some(r) =>
          assert Parsed(lines[i]) == [r];
          AtLevelSnoc(rs, r, Error);
          AtLevelSnoc(rs, r, Warning);
          rs := rs + [r];
          if r.level == Error {
            IssueStep(errors, r);
            errors := errors + [r];
            errorTags := Add(errorTags, r.tag);
            errorGroups := Add(errorGroups, Headline(r, GroupWidth));
          } else if r.level == Warning {
            IssueStep(warnings, r);
            warnings := warnings + [r];
            warningTags := Add(warningTags, r.tag);
            warningGroups := Add(warningGroups, Headline(r, GroupWidth));
          }
      }
      i := i + 1;
      assert rs == RecordsOf(lines[..i]);
    }
    assert lines[..i] == lines;
    issues := Issues(errors, warnings, errorTags, warningTags, errorGroups, warningGroups);
  }

  /** The records whose `tag: message[:width]` headline has not occurred before, in order. */
  function FirstByKey(rs: seq<LogRecord>, width: nat): seq<LogRecord> {
    if rs == [] then []
    else
      var init := rs[..|rs| - 1];
      var last := rs[|rs| - 1];
      FirstByKey(init, width) + if Headline(last, width) in Headlines(init, width) then [] else [last]
  }

  lemma FirstByKeySnoc(rs: seq<LogRecord>, i: nat, width: nat)
    requires i < |rs|
    ensures FirstByKey(rs[..i + 1], width)
      == FirstByKey(rs[..i], width) + if Headline(rs[i], width) in Headlines(rs[..i], width) then [] else [rs[i]]
  {
    assert rs[..i + 1][..i] == rs[..i];
  }

  /** The headlines of the first-by-key records are the distinct headlines, in first-seen order. */
  lemma {:induction false} FirstByKeyHeadlines(rs: seq<LogRecord>, width: nat)
    ensures Headlines(FirstByKey(rs, width), width) == FirstSeen(Headlines(rs, width))
  {
    if rs != [] {
      var init := rs[..|rs| - 1];
      var last := rs[|rs| - 1];
      var before := Headlines(init, width);
      var key := Headline(last, width);
      var kept := FirstByKey(init, width);
      assert rs == init + [last];
      ProjectionsSnoc(init, last, width);
      FirstSeenSnoc(before, key);
      FirstByKeyHeadlines(init, width);
      if key in before {
        assert FirstByKey(rs, width) == kept;
      } else {
        assert FirstByKey(rs, width) == kept + [last];
        ProjectionsSnoc(kept, last, width);
      }
    }
  }

  /** The first records of a longer list start with those of a shorter one. */
  lemma {:induction false} FirstByKeyPrefix(rs: seq<LogRecord>, width: nat, n: nat)
    requires n <= |rs|
    ensures FirstByKey(rs[..n], width) <= FirstByKey(rs, width)
    decreases |rs| - n
  {
    if n < |rs| {
      FirstByKeyPrefix(rs, width, n + 1);
      FirstByKeySnoc(rs, n, width);
    } else {
      assert rs[..n] == rs;
    }
  }

  /** A headline has been seen among the records exactly when one of the first-by-key records has it. */
  lemma SeenHeadline(rs: seq<LogRecord>, width: nat, key: string)
    ensures key in Headlines(FirstByKey(rs, width), width) <==> key in Headlines(rs, width)
  {
    FirstByKeyHeadlines(rs, width);
    FirstSeenElements(Headlines(rs, width));
  }

  /** One error more: the shown list grows by it exactly when there is room and its headline is new. */
  lemma UniqueStep(errors: seq<LogRecord>, i: nat, shown: seq<LogRecord>)
    requires i < |errors| && shown == Take(FirstByKey(errors[..i], UniqueWidth), UniqueLimit)
    ensures Take(FirstByKey(errors[..i + 1], UniqueWidth), UniqueLimit)
      == if |shown| < UniqueLimit && Headline(errors[i], UniqueWidth) !in Headlines(shown, UniqueWidth)
         then shown + [errors[i]] else shown
  {
    var before := FirstByKey(errors[..i], UniqueWidth);
    var after := FirstByKey(errors[..i + 1], UniqueWidth);
    var key := Headline(errors[i], UniqueWidth);
    FirstByKeySnoc(errors, i, UniqueWidth);
    assert after == before + if key in Headlines(errors[..i], UniqueWidth) then [] else [errors[i]];
    if |shown| < UniqueLimit {
      assert shown == before;
      SeenHeadline(errors[..i], UniqueWidth, key);
    } else {
      assert after[..UniqueLimit] == before[..UniqueLimit];
    }
  }

  /** Priority 3 of `create_critical_report`: the first twenty errors whose headline is new. */
  method FirstUniqueErrors(errors: seq<LogRecord>) returns (shown: seq<LogRecord>)
    ensures shown == Take(FirstByKey(errors, UniqueWidth), UniqueLimit)
  {
    var seen: set<string> := {};
    var count := 0;
    shown := [];
    for i := 0 to |errors|
      invariant count == |shown| <= UniqueLimit
      invariant shown == Take(FirstByKey(errors[..i], UniqueWidth), UniqueLimit)
      invariant forall k :: k in seen <==> k in Headlines(shown, UniqueWidth)
    {
      var key := Headline(errors[i], UniqueWidth);
      UniqueStep(errors, i, shown);
      if key !in seen && count < UniqueLimit {
        ProjectionsSnoc(shown, errors[i], UniqueWidth);
        seen := seen + {key};
        shown := shown + [errors[i]];
        count := count + 1;
      }
    }
    assert errors[..|errors|] == errors;
  }

  /** What `create_critical_report` states for the lines of a file. */
  function ReportOf(lines: seq<string>): Report {
    var issues := IssuesOf(lines);
    Report(
      |issues.errors|,
      |issues.warnings|,
      MostCommon(issues.errorGroups, TopLimit),
      MostCommon(issues.errorTags, TopLimit),
      Take(FirstByKey(issues.errors, UniqueWidth), UniqueLimit),
      MostCommon(issues.warningTags, TopLimit),
      |issues.errorGroups|)
  }

  /** `create_critical_report`: collect, then select each section. */
  method CreateCriticalReport(lines: seq<string>) returns (report: Report)
    ensures report == ReportOf(lines)
  {
    var issues := CollectIssues(lines);
    var unique := FirstUniqueErrors(issues.errors);
    report := Report(
      |issues.errors|,
      |issues.warnings|,
      MostCommon(issues.errorGroups, TopLimit),
      MostCommon(issues.errorTags, TopLimit),
      unique,
      MostCommon(issues.warningTags, TopLimit),
      |issues.errorGroups|);
  }

  /** `rs[j]` is the first record with its headline. */
  predicate FirstOccurrence(rs: seq<LogRecord>, j: int, width: nat) {
    0 <= j < |rs| && forall i :: 0 <= i < j ==> Headline(rs[i], width) != Headline(rs[j], width)
  }

  /** Within a prefix, being a first occurrence does not depend on what follows. */
  lemma FirstOccurrencePrefix(rs: seq<LogRecord>, width: nat, n: nat, j: int)
    requires 0 <= j < n <= |rs|
    ensures FirstOccurrence(rs[..n], j, width) <==> FirstOccurrence(rs, j, width)
    ensures rs[..n][j] == rs[j]
  {
    assert forall i :: 0 <= i <= j ==> rs[..n][i] == rs[i];
  }

  /** The last record is a first occurrence exactly when its headline is new. */
  lemma FirstOccurrenceLast(rs: seq<LogRecord>, width: nat)
    requires rs != []
    ensures FirstOccurrence(rs, |rs| - 1, width) <==> Headline(rs[|rs| - 1], width) !in Headlines(rs[..|rs| - 1], width)
  {
    var n := |rs| - 1;
    var hs := Headlines(rs[..n], width);
    if Headline(rs[n], width) in hs {
      var i :| 0 <= i < n && hs[i] == Headline(rs[n], width);
      assert hs[i] == Headline(rs[i], width);
    } else {
      forall i | 0 <= i < n
        ensures Headline(rs[i], width) != Headline(rs[n], width)
      {
        assert hs[i] == Headline(rs[i], width);
      }
    }
  }

  /** The first-by-key records are exactly the records that are the first with their headline. */
  lemma {:induction false} FirstByKeyMembers(rs: seq<LogRecord>, width: nat, j: nat)
    requires j < |rs|
    ensures FirstOccurrence(rs, j, width) ==> rs[j] in FirstByKey(rs, width)
  {
    var n := |rs| - 1;
    var init := rs[..n];
    if FirstOccurrence(rs, j, width) {
      if j < n {
        FirstOccurrencePrefix(rs, width, n, j);
        FirstByKeyMembers(init, width, j);
      } else {
        FirstOccurrenceLast(rs, width);
      }
    }
  }

  /** Every first-by-key record is the first record with its headline. */
  lemma {:induction false} FirstByKeyFirst(rs: seq<LogRecord>, width: nat, x: LogRecord)
    requires x in FirstByKey(rs, width)
    ensures exists j :: FirstOccurrence(rs, j, width) && rs[j] == x
  {
    assert rs != [];
    var n := |rs| - 1;
    var init := rs[..n];
    if x in FirstByKey(init, width) {
      FirstByKeyFirst(init, width, x);
      var j :| FirstOccurrence(init, j, width) && init[j] == x;
      FirstOccurrencePrefix(rs, width, n, j);
    } else {
      assert x == rs[n] && Headline(rs[n], width) !in Headlines(init, width);
      FirstOccurrenceLast(rs, width);
    }
  }

  /** Errors and warnings are counted once each, per tag and per group alike. */
  lemma ReportTotals(lines: seq<string>)
    ensures ReportOf(lines).totalErrors == multiset(LevelsOf(RecordsOf(lines)))[Error]
    ensures ReportOf(lines).totalWarnings == multiset(LevelsOf(RecordsOf(lines)))[Warning]
    ensures Sum(IssuesOf(lines).errorTags) == ReportOf(lines).totalErrors
    ensures Sum(IssuesOf(lines).errorGroups) == ReportOf(lines).totalErrors
    ensures Sum(IssuesOf(lines).warningTags) == ReportOf(lines).totalWarnings
    ensures Sum(IssuesOf(lines).warningGroups) == ReportOf(lines).totalWarnings
    ensures ReportOf(lines).uniqueErrorTypes == |FirstSeen(Headlines(IssuesOf(lines).errors, GroupWidth))|
  {
    var issues := IssuesOf(lines);
    AtLevelCount(RecordsOf(lines), Error);
    AtLevelCount(RecordsOf(lines), Warning);
    CounterOfTotal(TagsOf(issues.errors));
    CounterOfTotal(TagsOf(issues.warnings));
    CounterOfTotal(Headlines(issues.errors, GroupWidth));
    CounterOfTotal(Headlines(issues.warnings, GroupWidth));
    CounterOfKeys(Headlines(issues.errors, GroupWidth));
    assert |Keys(issues.errorGroups)| == |issues.errorGroups|;
  }

  /** Priorities 1 and 2 and the warning summary: at most ten entries each, by descending count, each
      with its number of errors (of the group or of the tag) or of warnings (of the tag). */
  lemma ReportFrequencies(lines: seq<string>)
    ensures var r := ReportOf(lines);
      |r.frequentErrors| <= TopLimit && |r.errorComponents| <= TopLimit && |r.warningComponents| <= TopLimit
    ensures var r := ReportOf(lines);
      NonIncreasing(r.frequentErrors) && NonIncreasing(r.errorComponents) && NonIncreasing(r.warningComponents)
    ensures var r := ReportOf(lines); var es := IssuesOf(lines).errors;
      forall i :: 0 <= i < |r.frequentErrors| ==>
        r.frequentErrors[i].1 == multiset(Headlines(es, GroupWidth))[r.frequentErrors[i].0]
    ensures var r := ReportOf(lines); var es := IssuesOf(lines).errors;
      forall i :: 0 <= i < |r.errorComponents| ==>
        r.errorComponents[i].1 == multiset(TagsOf(es))[r.errorComponents[i].0]
    ensures var r := ReportOf(lines); var ws := IssuesOf(lines).warnings;
      forall i :: 0 <= i < |r.warningComponents| ==>
        r.warningComponents[i].1 == multiset(TagsOf(ws))[r.warningComponents[i].0]
  {
    var issues := IssuesOf(lines);
    MostCommonCounts(Headlines(issues.errors, GroupWidth), TopLimit);
    MostCommonCounts(TagsOf(issues.errors), TopLimit);
    MostCommonCounts(TagsOf(issues.warnings), TopLimit);
  }

  /** The first `n` first-by-key records: at most `n`, pairwise different headlines, each the first
      record with its headline, and, when fewer than `n`, one for every headline. */
  lemma TakeFirstByKey(rs: seq<LogRecord>, width: nat, n: nat)
    ensures |Take(FirstByKey(rs, width), n)| <= n
    ensures Distinct(Headlines(Take(FirstByKey(rs, width), n), width))
    ensures forall x :: x in Take(FirstByKey(rs, width), n) ==> exists j :: FirstOccurrence(rs, j, width) && rs[j] == x
    ensures |Take(FirstByKey(rs, width), n)| < n ==>
      forall j :: FirstOccurrence(rs, j, width) ==> rs[j] in Take(FirstByKey(rs, width), n)
  {
    var all := FirstByKey(rs, width);
    var shown := Take(all, n);
    FirstByKeyHeadlines(rs, width);
    FirstSeenElements(Headlines(rs, width));
    assert Headlines(shown, width) == Headlines(all, width)[..|shown|];
    forall x | x in shown
      ensures exists j :: FirstOccurrence(rs, j, width) && rs[j] == x
    {
      FirstByKeyFirst(rs, width, x);
    }
    if |shown| < n {
      assert shown == all;
      forall j | FirstOccurrence(rs, j, width)
        ensures rs[j] in shown
      {
        FirstByKeyMembers(rs, width, j);
      }
    }
  }

  /** Priority 3: at most twenty errors, pairwise different headlines, each the first error with its
      headline, and, when fewer than twenty, one for every headline among the errors. */
  lemma ReportUniqueErrors(lines: seq<string>)
    ensures |ReportOf(lines).uniqueErrors| <= UniqueLimit
    ensures Distinct(Headlines(ReportOf(lines).uniqueErrors, UniqueWidth))
    ensures forall x :: x in ReportOf(lines).uniqueErrors ==>
      exists j :: FirstOccurrence(IssuesOf(lines).errors, j, UniqueWidth) && IssuesOf(lines).errors[j] == x
    ensures |ReportOf(lines).uniqueErrors| < UniqueLimit ==>
      forall j :: FirstOccurrence(IssuesOf(lines).errors, j, UniqueWidth) ==>
        IssuesOf(lines).errors[j] in ReportOf(lines).uniqueErrors
  {
    TakeFirstByKey(IssuesOf(lines).errors, UniqueWidth, UniqueLimit);
  }
}
