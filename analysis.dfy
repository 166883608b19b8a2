/**
 * The statistics of `analyze_file`: one pass over the lines fills a level counter, a tag
 * counter and the lists of error and warning headlines; the report then shows the level
 * distribution in a fixed order, the ten most active tags and at most ten errors and ten
 * warnings each.
 */
module Analysis {
  import opened Wrappers
  import opened Text
  import opened Counters
  import opened LogLine
  import opened Records

  /** Width to which messages are cut in the error and warning lists. */
  const HeadlineWidth: nat := 100
  /** How many tags, errors and warnings the report shows. */
  const ShowLimit: nat := 10
  /** The order in which the level distribution is shown. */
  const ReportOrder: seq<Level> := [Error, Warning, Info, Debug, Verbose, Fatal]

  /** Position of a level in `ReportOrder`. */
  function Rank(l: Level): nat {
    match l
    case Error => 0
    case Warning => 1
    case Info => 2
    case Debug => 3
    case Verbose => 4
    case Fatal => 5
  }

  /** One line of the level distribution. */
  datatype LevelShare = LevelShare(level: Level, count: nat, percent: real)

  /** The error or warning section: its length, the entries shown, and the "and N more" remainder. */
  datatype Listing = Listing(total: nat, shown: seq<string>, more: Option<nat>)

  /** Everything the analysis reports. */
  datatype Summary = Summary(
    distribution: seq<LevelShare>,
    total: nat,
    topTags: seq<(string, nat)>,
    errors: Option<Listing>,
    warnings: Option<Listing>)

  /** The four accumulators after the loop over `lines`. */
  function LevelCounter(lines: seq<string>): seq<(Level, nat)> {
    CounterOf(LevelsOf(RecordsOf(lines)))
  }

  function TagCounter(lines: seq<string>): seq<(string, nat)> {
    CounterOf(TagsOf(RecordsOf(lines)))
  }

  function ErrorLines(lines: seq<string>): seq<string> {
    Headlines(AtLevel(RecordsOf(lines), Error), HeadlineWidth)
  }

  function WarningLines(lines: seq<string>): seq<string> {
    Headlines(AtLevel(RecordsOf(lines), Warning), HeadlineWidth)
  }

  /** A line that does not parse leaves every accumulator as it was. */
  lemma CountStepSkip(lines: seq<string>, i: nat)
    requires i < |lines| && Parse(lines[i]).None?
    ensures RecordsOf(lines[..i + 1]) == RecordsOf(lines[..i])
  {
    RecordsOfSnoc(lines, i);
  }

  /** Appending a record to the stream counts its level and tag and extends the error or warning list. */
  lemma RecordStep(rs: seq<LogRecord>, r: LogRecord)
    ensures CounterOf(LevelsOf(rs + [r])) == Add(CounterOf(LevelsOf(rs)), r.level)
    ensures CounterOf(TagsOf(rs + [r])) == Add(CounterOf(TagsOf(rs)), r.tag)
    ensures Headlines(AtLevel(rs + [r], Error), HeadlineWidth)
      == Headlines(AtLevel(rs, Error), HeadlineWidth) + if r.level == Error then [Headline(r, HeadlineWidth)] else []
    ensures Headlines(AtLevel(rs + [r], Warning), HeadlineWidth)
      == Headlines(AtLevel(rs, Warning), HeadlineWidth) + if r.level == Warning then [Headline(r, HeadlineWidth)] else []
  {
    ProjectionsSnoc(rs, r, HeadlineWidth);
    CounterOfSnoc(LevelsOf(rs), r.level);
    CounterOfSnoc(TagsOf(rs), r.tag);
    ListStep(rs, r, Error);
    ListStep(rs, r, Warning);
  }

  /** Appending a record extends the headline list of its own level only. */
  lemma ListStep(rs: seq<LogRecord>, r: LogRecord, level: Level)
    ensures Headlines(AtLevel(rs + [r], level), HeadlineWidth)
      == Headlines(AtLevel(rs, level), HeadlineWidth) + if r.level == level then [Headline(r, HeadlineWidth)] else []
  {
    AtLevelSnoc(rs, r, level);
    if r.level == level {
      ProjectionsSnoc(AtLevel(rs, level), r, HeadlineWidth);
    }
  }

  /** A line that parses to `r` appends `r` to the records read so far. */
  lemma CountStepRecord(lines: seq<string>, i: nat, r: LogRecord)
    requires i < |lines| && Parse(lines[i]) == Some(r)
    ensures RecordsOf(lines[..i + 1]) == RecordsOf(lines[..i]) + [r]
  {
    RecordsOfSnoc(lines, i);
  }

  /** The counting loop of `analyze_file`. */
  method CountLines(lines: seq<string>)
    returns (levels: seq<(Level, nat)>, tags: seq<(string, nat)>, errors: seq<string>, warnings: seq<string>)
    ensures levels == LevelCounter(lines) && tags == TagCounter(lines)
    ensures errors == ErrorLines(lines) && warnings == WarningLines(lines)
  {
    levels, tags, errors, warnings := [], [], [], [];
    ghost var rs: seq<LogRecord> := [];
    assert lines[..0] == [];
    assert rs == RecordsOf(lines[..0]);
    var i := 0;
    while i < |lines|
      invariant i <= |lines| && rs == RecordsOf(lines[..i])
      invariant levels == CounterOf(LevelsOf(rs)) && tags == CounterOf(TagsOf(rs))
      invariant errors == Headlines(AtLevel(rs, Error), HeadlineWidth)
      invariant warnings == Headlines(AtLevel(rs, Warning), HeadlineWidth)
    {
      match Parse(lines[i]) {
        case None =>
          CountStepSkip(lines, i);
        case Some(r) =>
          CountStepRecord(lines, i, r);
          RecordStep(rs, r);
          rs := rs + [r];
          levels := Add(levels, r.level);
          tags := Add(tags, r.tag);
          if r.level == Error {
            errors := errors + [Headline(r, HeadlineWidth)];
          } else if r.level == Warning {
            warnings := warnings + [Headline(r, HeadlineWidth)];
          }
      }
      i := i + 1;
      assert rs == RecordsOf(lines[..i]);
    }
    assert lines[..i] == lines;
  }

  /** `(count / total) * 100`, the share of a level in per cent. */
  function Percent(count: nat, total: nat): real
    requires total > 0
  {
    (count as real / total as real) * 100.0
  }

  /** The distribution lines for the levels of `order` that occur, each with its share of the total. */
  function Shares(order: seq<Level>, levels: seq<(Level, nat)>): (shares: seq<LevelShare>)
    ensures |shares| <= |order|
    ensures forall i :: 0 <= i < |shares| ==>
      shares[i].level in order && shares[i].count == Get(levels, shares[i].level) > 0
  {
    if order == [] then []
    else
      var count := Get(levels, order[0]);
      var rest := Shares(order[1..], levels);
      if count > 0 then
        GetAtMostSum(levels, order[0]);
        [LevelShare(order[0], count, Percent(count, Sum(levels)))] + rest
      else rest
  }

  function ShareLevels(shares: seq<LevelShare>): (ls: seq<Level>)
    ensures |ls| == |shares| && forall i :: 0 <= i < |shares| ==> ls[i] == shares[i].level
  {
    seq(|shares|, i requires 0 <= i < |shares| => shares[i].level)
  }

  function CountTotal(shares: seq<LevelShare>): nat {
    if shares == [] then 0 else shares[0].count + CountTotal(shares[1..])
  }

  function PercentTotal(shares: seq<LevelShare>): real {
    if shares == [] then 0.0 else shares[0].percent + PercentTotal(shares[1..])
  }

  /** The error or warning section, present only when the list is not empty. */
  function Section(list: seq<string>): (s: Option<Listing>)
    ensures s.None? <==> list == []
    ensures s.Some? ==> |s.value.shown| == if |list| <= ShowLimit then |list| else ShowLimit
    ensures s.Some? ==>
      (s.value.total == |list| && |s.value.shown| <= ShowLimit && |s.value.shown| <= |list|
       && list == s.value.shown + list[|s.value.shown|..]
       && (s.value.more.Some? <==> |list| > ShowLimit)
       && |s.value.shown| + (if s.value.more.Some? then s.value.more.value else 0) == |list|)
  {
    if list == [] then None
    else Some(Listing(|list|, Take(list, ShowLimit), if |list| > ShowLimit then Some(|list| - ShowLimit) else None))
  }

  /** What `analyze_file` reports for the lines of a file. */
  function SummaryOf(lines: seq<string>): Summary {
    var levels := LevelCounter(lines);
    Summary(
      Shares(ReportOrder, levels),
      Sum(levels),
      MostCommon(TagCounter(lines), ShowLimit),
      Section(ErrorLines(lines)),
      Section(WarningLines(lines)))
  }

  /** `analyze_file`: `None` when the file cannot be opened, otherwise its summary. */
  method AnalyzeFile(source: Option<seq<string>>) returns (summary: Option<Summary>)
    ensures source.None? <==> summary.None?
    ensures source.Some? ==> summary == Some(SummaryOf(source.value))
  {
    if source.None? {
      return None;
    }
    var levels, tags, errors, warnings := CountLines(source.value);
    summary := Some(Summary(
      Shares(ReportOrder, levels),
      Sum(levels),
      MostCommon(tags, ShowLimit),
      Section(errors),
      Section(warnings)));
  }

  /** The total is the number of lines that parse, and the tag counts and the six level counts add up to it. */
  lemma SummaryTotals(lines: seq<string>)
    ensures SummaryOf(lines).total == |RecordsOf(lines)|
    ensures Sum(TagCounter(lines)) == |RecordsOf(lines)|
    ensures var c := LevelCounter(lines);
      Get(c, Error) + Get(c, Warning) + Get(c, Info) + Get(c, Debug) + Get(c, Verbose) + Get(c, Fatal)
      == |RecordsOf(lines)|
  {
    var rs := RecordsOf(lines);
    CounterOfTotal(LevelsOf(rs));
    CounterOfTotal(TagsOf(rs));
    LevelsPartition(LevelsOf(rs));
    forall l: Level
      ensures Get(LevelCounter(lines), l) == multiset(LevelsOf(rs))[l]
    {
      CounterOfCounts(LevelsOf(rs), l);
    }
  }

  /** The headline list of a level holds one headline per record of that level. */
  lemma IssueListOf(rs: seq<LogRecord>, level: Level)
    ensures |Headlines(AtLevel(rs, level), HeadlineWidth)| == multiset(LevelsOf(rs))[level]
    ensures forall i :: 0 <= i < |Headlines(AtLevel(rs, level), HeadlineWidth)| ==>
      exists r :: r in rs && r.level == level && Headlines(AtLevel(rs, level), HeadlineWidth)[i] == Headline(r, HeadlineWidth)
  {
    AtLevelCount(rs, level);
    var hs := Headlines(AtLevel(rs, level), HeadlineWidth);
    forall i | 0 <= i < |hs|
      ensures exists r :: r in rs && r.level == level && hs[i] == Headline(r, HeadlineWidth)
    {
      var r := AtLevel(rs, level)[i];
      AtLevelMembers(rs, level, r);
    }
  }

  /** Each entry of the error list is the headline of an error record. */
  lemma ErrorListEntries(lines: seq<string>)
    ensures |ErrorLines(lines)| == multiset(LevelsOf(RecordsOf(lines)))[Error]
    ensures forall i :: 0 <= i < |ErrorLines(lines)| ==>
      exists r :: r in RecordsOf(lines) && r.level == Error && ErrorLines(lines)[i] == Headline(r, HeadlineWidth)
  {
    IssueListOf(RecordsOf(lines), Error);
  }

  /** Each entry of the warning list is the headline of a warning record. */
  lemma WarningListEntries(lines: seq<string>)
    ensures |WarningLines(lines)| == multiset(LevelsOf(RecordsOf(lines)))[Warning]
    ensures forall i :: 0 <= i < |WarningLines(lines)| ==>
      exists r :: r in RecordsOf(lines) && r.level == Warning && WarningLines(lines)[i] == Headline(r, HeadlineWidth)
  {
    IssueListOf(RecordsOf(lines), Warning);
  }

  /** The error list holds one headline per error record, and the warning list one per warning record. */
  lemma SummaryIssueLists(lines: seq<string>)
    ensures |ErrorLines(lines)| == multiset(LevelsOf(RecordsOf(lines)))[Error]
    ensures |WarningLines(lines)| == multiset(LevelsOf(RecordsOf(lines)))[Warning]
    ensures forall i :: 0 <= i < |ErrorLines(lines)| ==>
      exists r :: r in RecordsOf(lines) && r.level == Error && ErrorLines(lines)[i] == Headline(r, HeadlineWidth)
    ensures forall i :: 0 <= i < |WarningLines(lines)| ==>
      exists r :: r in RecordsOf(lines) && r.level == Warning && WarningLines(lines)[i] == Headline(r, HeadlineWidth)
  {
    ErrorListEntries(lines);
    WarningListEntries(lines);
  }

  /** The sum of the counts of the levels of `order`. */
  function OrderTotal(order: seq<Level>, levels: seq<(Level, nat)>): nat {
    if order == [] then 0 else Get(levels, order[0]) + OrderTotal(order[1..], levels)
  }

  /** Each distribution line gives its level's share of the total. */
  lemma {:induction false} SharesPercents(order: seq<Level>, levels: seq<(Level, nat)>)
    ensures forall i :: 0 <= i < |Shares(order, levels)| ==>
      Sum(levels) > 0 && Shares(order, levels)[i].percent == Percent(Shares(order, levels)[i].count, Sum(levels))
  {
    if order != [] {
      var rest := Shares(order[1..], levels);
      SharesPercents(order[1..], levels);
      if Get(levels, order[0]) > 0 {
        GetAtMostSum(levels, order[0]);
        var shares := Shares(order, levels);
        forall i | 0 <= i < |shares|
          ensures Sum(levels) > 0 && shares[i].percent == Percent(shares[i].count, Sum(levels))
        {
          if i > 0 {
            assert shares[i] == rest[i - 1];
          }
        }
      } else {
        assert Shares(order, levels) == rest;
      }
    } else {
      assert Shares(order, levels) == [];
    }
  }

  /** The first level of `order` gets a line in front of the others exactly when it occurs. */
  lemma SharesHead(order: seq<Level>, levels: seq<(Level, nat)>)
    requires order != []
    ensures Get(levels, order[0]) > 0 ==>
      Shares(order, levels) == [Shares(order, levels)[0]] + Shares(order[1..], levels)
      && Shares(order, levels)[0].level == order[0]
    ensures Get(levels, order[0]) == 0 ==> Shares(order, levels) == Shares(order[1..], levels)
  {
  }

  lemma ShareLevelsCons(s: LevelShare, rest: seq<LevelShare>)
    ensures ShareLevels([s] + rest) == [s.level] + ShareLevels(rest)
  {
    var all := [s] + rest;
    var ls := ShareLevels(all);
    forall i | 0 <= i < |ls|
      ensures ls[i] == ([s.level] + ShareLevels(rest))[i]
    {
      if i > 0 {
        assert all[i] == rest[i - 1];
      }
    }
  }

  /** A level of `order` has a distribution line exactly when it occurs. */
  lemma {:induction false} SharesComplete(order: seq<Level>, levels: seq<(Level, nat)>, l: Level)
    requires l in order
    ensures l in ShareLevels(Shares(order, levels)) <==> Get(levels, l) > 0
  {
    var shares := Shares(order, levels);
    var rest := Shares(order[1..], levels);
    SharesHead(order, levels);
    if Get(levels, order[0]) > 0 {
      ShareLevelsCons(shares[0], rest);
    }
    if l != order[0] {
      assert l in order[1..];
      SharesComplete(order[1..], levels, l);
    } else if Get(levels, l) == 0 {
      forall i | 0 <= i < |rest|
        ensures ShareLevels(rest)[i] != l
      {
        assert rest[i].count == Get(levels, rest[i].level) > 0;
      }
    }
  }

  /** The distribution lines keep the order of `order`. */
  lemma {:induction false} SharesOrdered(order: seq<Level>, levels: seq<(Level, nat)>)
    requires forall i, j :: 0 <= i < j < |order| ==> Rank(order[i]) < Rank(order[j])
    ensures forall i, j :: 0 <= i < j < |Shares(order, levels)| ==>
      Rank(Shares(order, levels)[i].level) < Rank(Shares(order, levels)[j].level)
  {
    if order != [] {
      var rest := Shares(order[1..], levels);
      SharesOrdered(order[1..], levels);
      SharesHead(order, levels);
      if Get(levels, order[0]) > 0 {
        var first := Shares(order, levels)[0];
        forall i | 0 <= i < |rest|
          ensures Rank(first.level) < Rank(rest[i].level)
        {
          var j :| 0 <= j < |order[1..]| && order[1..][j] == rest[i].level;
          assert order[j + 1] == rest[i].level;
        }
        RankedCons(first, rest);
      }
    }
  }

  /** A line ranked before every line of a ranked list keeps the list ranked. */
  lemma RankedCons(first: LevelShare, rest: seq<LevelShare>)
    requires forall i :: 0 <= i < |rest| ==> Rank(first.level) < Rank(rest[i].level)
    requires forall i, j :: 0 <= i < j < |rest| ==> Rank(rest[i].level) < Rank(rest[j].level)
    ensures forall i, j :: 0 <= i < j < |[first] + rest| ==>
      Rank(([first] + rest)[i].level) < Rank(([first] + rest)[j].level)
  {
    var all := [first] + rest;
    forall i, j | 0 <= i < j < |all|
      ensures Rank(all[i].level) < Rank(all[j].level)
    {
      assert all[j] == rest[j - 1];
      if i > 0 {
        assert all[i] == rest[i - 1];
      }
    }
  }

  /** `ReportOrder` lists each level at its rank. */
  lemma ReportOrderRanks()
    ensures forall i, j :: 0 <= i < j < |ReportOrder| ==> Rank(ReportOrder[i]) < Rank(ReportOrder[j])
  {
    forall i | 0 <= i < |ReportOrder|
      ensures Rank(ReportOrder[i]) == i
    {
    }
  }

  lemma PercentAdd(c: nat, rest: nat, t: nat)
    requires t > 0
    ensures Percent(c, t) + Percent(rest, t) == Percent(c + rest, t)
    ensures Percent(t, t) == 100.0
  {
  }

  /** The six levels of `ReportOrder` are all the levels. */
  lemma ReportOrderTotal(levels: seq<(Level, nat)>)
    ensures OrderTotal(ReportOrder, levels)
      == Get(levels, Error) + Get(levels, Warning) + Get(levels, Info)
       + Get(levels, Debug) + Get(levels, Verbose) + Get(levels, Fatal)
  {
    assert OrderTotal([Fatal], levels) == Get(levels, Fatal);
    assert OrderTotal([Verbose, Fatal], levels) == Get(levels, Verbose) + OrderTotal([Fatal], levels)
      by { assert [Verbose, Fatal][1..] == [Fatal]; }
    assert OrderTotal([Debug, Verbose, Fatal], levels) == Get(levels, Debug) + OrderTotal([Verbose, Fatal], levels)
      by { assert [Debug, Verbose, Fatal][1..] == [Verbose, Fatal]; }
    assert OrderTotal([Info, Debug, Verbose, Fatal], levels)
      == Get(levels, Info) + OrderTotal([Debug, Verbose, Fatal], levels)
      by { assert [Info, Debug, Verbose, Fatal][1..] == [Debug, Verbose, Fatal]; }
    assert OrderTotal([Warning, Info, Debug, Verbose, Fatal], levels)
      == Get(levels, Warning) + OrderTotal([Info, Debug, Verbose, Fatal], levels)
      by { assert [Warning, Info, Debug, Verbose, Fatal][1..] == [Info, Debug, Verbose, Fatal]; }
    assert ReportOrder[1..] == [Warning, Info, Debug, Verbose, Fatal];
  }

  /** The distribution of a level counter whose levels add up to its total. */
  lemma Distribution(levels: seq<(Level, nat)>)
    requires Get(levels, Error) + Get(levels, Warning) + Get(levels, Info)
       + Get(levels, Debug) + Get(levels, Verbose) + Get(levels, Fatal) == Sum(levels)
    ensures forall l: Level :: l in ShareLevels(Shares(ReportOrder, levels)) <==> Get(levels, l) > 0
    ensures var shares := Shares(ReportOrder, levels);
      forall i, j :: 0 <= i < j < |shares| ==> Rank(shares[i].level) < Rank(shares[j].level)
    ensures CountTotal(Shares(ReportOrder, levels)) == Sum(levels)
    ensures Sum(levels) > 0 ==> PercentTotal(Shares(ReportOrder, levels)) == 100.0
  {
    forall l: Level
      ensures l in ShareLevels(Shares(ReportOrder, levels)) <==> Get(levels, l) > 0
    {
      assert l in ReportOrder by {
        match l
        case Error => assert ReportOrder[0] == l;
        case Warning => assert ReportOrder[1] == l;
        case Info => assert ReportOrder[2] == l;
        case Debug => assert ReportOrder[3] == l;
        case Verbose => assert ReportOrder[4] == l;
        case Fatal => assert ReportOrder[5] == l;
      }
      SharesComplete(ReportOrder, levels, l);
    }
    ReportOrderRanks();
    SharesOrdered(ReportOrder, levels);
    SharesCount(ReportOrder, levels);
    ReportOrderTotal(levels);
    if Sum(levels) > 0 {
      SharesPercent(ReportOrder, levels);
      PercentAdd(0, 0, Sum(levels));
    }
  }

  /** The counts shown add up to the counts of all the levels of `order`, zero ones included. */
  lemma {:induction false} SharesCount(order: seq<Level>, levels: seq<(Level, nat)>)
    ensures CountTotal(Shares(order, levels)) == OrderTotal(order, levels)
  {
    if order != [] {
      SharesCount(order[1..], levels);
    }
  }

  /** Each percentage is its count over the total, so together they are the shown counts over the total. */
  lemma {:induction false} SharesPercent(order: seq<Level>, levels: seq<(Level, nat)>)
    requires Sum(levels) > 0
    ensures PercentTotal(Shares(order, levels)) == Percent(CountTotal(Shares(order, levels)), Sum(levels))
  {
    if order != [] {
      SharesPercent(order[1..], levels);
      PercentAdd(Get(levels, order[0]), CountTotal(Shares(order[1..], levels)), Sum(levels));
    }
  }

  /** The distribution covers exactly the levels that occur, in the order E, W, I, D, V, F; its
      counts add up to the total and, when there is any record, its percentages to 100. */
  lemma SummaryDistribution(lines: seq<string>)
    ensures var s := SummaryOf(lines);
      forall l: Level :: l in ShareLevels(s.distribution) <==> Get(LevelCounter(lines), l) > 0
    ensures var s := SummaryOf(lines);
      forall i, j :: 0 <= i < j < |s.distribution| ==> Rank(s.distribution[i].level) < Rank(s.distribution[j].level)
    ensures CountTotal(SummaryOf(lines).distribution) == SummaryOf(lines).total
    ensures SummaryOf(lines).total > 0 ==> PercentTotal(SummaryOf(lines).distribution) == 100.0
    ensures var s := SummaryOf(lines);
      forall i :: 0 <= i < |s.distribution| ==>
        s.total > 0 && s.distribution[i].count == Get(LevelCounter(lines), s.distribution[i].level)
        && s.distribution[i].percent == Percent(s.distribution[i].count, s.total)
  {
    SummaryTotals(lines);
    Distribution(LevelCounter(lines));
    SharesPercents(ReportOrder, LevelCounter(lines));
  }

  /** Without a parseable line there is nothing to show, and no percentage is computed. */
  lemma SummaryEmpty(lines: seq<string>)
    requires RecordsOf(lines) == []
    ensures SummaryOf(lines) == Summary([], 0, [], None, None)
  {
    var levels := LevelCounter(lines);
    assert levels == [];
  }

  /** The tags shown: at most ten, each with its number of records, by descending count; a tag left
      out has no more records than any tag shown, and tags of equal count keep first-seen order. */
  lemma SummaryTopTags(lines: seq<string>)
    ensures var top := SummaryOf(lines).topTags;
      |top| == if |FirstSeen(TagsOf(RecordsOf(lines)))| < ShowLimit
               then |FirstSeen(TagsOf(RecordsOf(lines)))| else ShowLimit
    ensures NonIncreasing(SummaryOf(lines).topTags)
    ensures var top := SummaryOf(lines).topTags;
      forall i :: 0 <= i < |top| ==> top[i].1 == multiset(TagsOf(RecordsOf(lines)))[top[i].0]
    ensures var top := SummaryOf(lines).topTags;
      forall e, x :: e in TagCounter(lines) && e !in top && x in top ==> e.1 <= x.1
    ensures forall v: nat :: WithCount(SummaryOf(lines).topTags, v) <= WithCount(TagCounter(lines), v)
  {
    var c := TagCounter(lines);
    var top := MostCommon(c, ShowLimit);
    MostCommonCounts(TagsOf(RecordsOf(lines)), ShowLimit);
    forall e, x | e in c && e !in top && x in top
      ensures e.1 <= x.1
    {
      MostCommonTop(c, ShowLimit, e, x);
    }
    forall v: nat
      ensures WithCount(top, v) <= WithCount(c, v)
    {
      MostCommonTies(c, ShowLimit, v);
    }
  }
}
