/**
 * `filter_by_level` and `filter_by_tag`: copy to an output file, unchanged and in order,
 * the lines that parse and whose record passes a test, count them, and return the name of
 * the output file (a default derived from the level or tag when none is given).
 */
module Filters {
  import opened Wrappers
  import opened Text
  import opened LogLine
  import opened Records

  /** What a filter keeps: records of one level, or records whose tag contains a text, ignoring case. */
  datatype Criterion = ByLevel(level: Level) | ByTag(tag: string)

  predicate Wanted(c: Criterion, r: LogRecord) {
    match c
    case ByLevel(level) => r.level == level
    case ByTag(tag) => Contains(Lower(r.tag), Lower(tag))
  }

  /** A raw line is kept when it parses and its record is wanted. */
  predicate Keeps(c: Criterion, line: string) {
    match Parse(line)
    case None => false
    case Some(r) => Wanted(c, r)
  }

  /** The lines a filter writes, in file order. */
  function Selected(lines: seq<string>, c: Criterion): seq<string> {
    if lines == [] then []
    else
      var last := lines[|lines| - 1];
      Selected(lines[..|lines| - 1], c) + if Keeps(c, last) then [last] else []
  }

  /** The wanted records of a record stream, in order. */
  function Matching(rs: seq<LogRecord>, c: Criterion): seq<LogRecord> {
    if rs == [] then []
    else
      var last := rs[|rs| - 1];
      Matching(rs[..|rs| - 1], c) + if Wanted(c, last) then [last] else []
  }

  /** `f'logcat_{level.lower()}.txt'` */
  function LevelFileName(level: Level): string {
    "logcat_" + [LowerChar(level.Letter())] + ".txt"
  }

  /** `f'logcat_{tag.replace(" ", "_")}.txt'` */
  function TagFileName(tag: string): string {
    "logcat_" + ReplaceChar(tag, ' ', '_') + ".txt"
  }

  lemma SelectedSnoc(lines: seq<string>, c: Criterion, i: nat)
    requires i < |lines|
    ensures Selected(lines[..i + 1], c) == Selected(lines[..i], c) + if Keeps(c, lines[i]) then [lines[i]] else []
  {
    assert lines[..i + 1][..i] == lines[..i];
  }

  /** The copying loop shared by both filters: the lines kept and their number. */
  method Filter(lines: seq<string>, c: Criterion) returns (written: seq<string>, count: nat)
    ensures written == Selected(lines, c) && count == |written|
  {
    written, count := [], 0;
    for i := 0 to |lines|
      invariant written == Selected(lines[..i], c) && count == |written|
    {
      var keep := Keeps(c, lines[i]);
      SelectedSnoc(lines, c, i);
      if keep {
        written := written + [lines[i]];
        count := count + 1;
      }
    }
    assert lines[..|lines|] == lines;
  }

  /** `filter_by_level`: the output file name, the lines written to it and their count. */
  method FilterByLevel(lines: seq<string>, level: Level, outputFile: Option<string>)
    returns (destination: string, written: seq<string>, count: nat)
    ensures destination == if outputFile.Some? then outputFile.value else LevelFileName(level)
    ensures written == Selected(lines, ByLevel(level)) && count == |written|
  {
    destination := if outputFile.Some? then outputFile.value else LevelFileName(level);
    written, count := Filter(lines, ByLevel(level));
  }

  /** `filter_by_tag`: the output file name, the lines written to it and their count. */
  method FilterByTag(lines: seq<string>, tag: string, outputFile: Option<string>)
    returns (destination: string, written: seq<string>, count: nat)
    ensures destination == if outputFile.Some? then outputFile.value else TagFileName(tag)
    ensures written == Selected(lines, ByTag(tag)) && count == |written|
  {
    destination := if outputFile.Some? then outputFile.value else TagFileName(tag);
    written, count := Filter(lines, ByTag(tag));
  }

  /** A filter writes exactly the lines of the file that parse to a wanted record. */
  lemma {:induction false} SelectedMembers(lines: seq<string>, c: Criterion, line: string)
    ensures line in Selected(lines, c) <==> line in lines && Keeps(c, line)
  {
    if lines != [] {
      var n := |lines| - 1;
      var init := lines[..n];
      SelectedMembers(init, c, line);
      SelectedSnoc(lines, c, n);
      assert lines[..n + 1] == lines;
      assert lines == init + [lines[n]];
    }
  }

  /** The lines written are the lines read, with the unwanted ones dropped: a prefix of the file gives a
      prefix of the output. */
  lemma {:induction false} SelectedPrefix(lines: seq<string>, c: Criterion, n: nat)
    requires n <= |lines|
    ensures Selected(lines[..n], c) <= Selected(lines, c)
    decreases |lines| - n
  {
    if n < |lines| {
      SelectedPrefix(lines, c, n + 1);
      SelectedSnoc(lines, c, n);
    } else {
      assert lines[..n] == lines;
    }
  }

  lemma RecordsOfAppend(lines: seq<string>, line: string)
    ensures RecordsOf(lines + [line]) == RecordsOf(lines) + Parsed(line)
  {
    var all := lines + [line];
    assert all[..|all| - 1] == lines && all[|all| - 1] == line;
    assert RecordsOf(all) == RecordsOf(all[..|all| - 1]) + Parsed(all[|all| - 1]);
  }

  /** The lines written parse, in order, to the wanted records of the file, one line per record. */
  lemma {:induction false} SelectedRecords(lines: seq<string>, c: Criterion)
    ensures RecordsOf(Selected(lines, c)) == Matching(RecordsOf(lines), c)
    ensures |Selected(lines, c)| == |Matching(RecordsOf(lines), c)|
  {
    if lines != [] {
      var n := |lines| - 1;
      var last := lines[n];
      var sel := Selected(lines[..n], c);
      SelectedRecords(lines[..n], c);
      SelectedSnoc(lines, c, n);
      RecordsOfSnoc(lines, n);
      assert lines[..n + 1] == lines;
      var rs := RecordsOf(lines[..n]);
      MatchingStep(rs, last, c);
      assert RecordsOf(lines) == rs + Parsed(last);
      if Keeps(c, last) {
        RecordsOfAppend(sel, last);
        assert Selected(lines, c) == sel + [last];
        assert Matching(RecordsOf(lines), c) == Matching(rs, c) + Parsed(last);
      } else {
        assert Selected(lines, c) == sel + [] == sel;
        assert Matching(RecordsOf(lines), c) == Matching(rs, c) + [] == Matching(rs, c);
      }
    } else {
      assert RecordsOf(lines) == [] && Selected(lines, c) == [];
    }
  }

  /** One more line adds its record to the wanted ones exactly when the filter keeps the line. */
  lemma MatchingStep(rs: seq<LogRecord>, line: string, c: Criterion)
    ensures Matching(rs + Parsed(line), c) == Matching(rs, c) + if Keeps(c, line) then Parsed(line) else []
    ensures Keeps(c, line) ==> |Parsed(line)| == 1
  {
    MatchingAppend(rs, Parse(line), c);
  }

  lemma MatchingAppend(rs: seq<LogRecord>, p: Option<LogRecord>, c: Criterion)
    ensures var extra := if p.Some? then [p.value] else [];
      Matching(rs + extra, c) == Matching(rs, c) + if p.Some? && Wanted(c, p.value) then extra else []
  {
    if p.Some? {
      assert (rs + [p.value])[..|rs|] == rs;
    } else {
      assert rs + [] == rs;
    }
  }

  /** Filtering records by level is `AtLevel`. */
  lemma {:induction false} MatchingLevel(rs: seq<LogRecord>, level: Level)
    ensures Matching(rs, ByLevel(level)) == AtLevel(rs, level)
  {
    if rs != [] {
      MatchingLevel(rs[..|rs| - 1], level);
    }
  }

  /** The empty tag is contained in every tag. */
  lemma {:induction false} MatchingEmptyTag(rs: seq<LogRecord>)
    ensures Matching(rs, ByTag("")) == rs
  {
    if rs != [] {
      var init := rs[..|rs| - 1];
      MatchingEmptyTag(init);
      assert StartsWith(Lower(rs[|rs| - 1].tag), Lower(""));
      assert rs == init + [rs[|rs| - 1]];
    }
  }

  /** `filter_by_level` writes one line per record of the level, the same records `analyze_file` counts. */
  lemma LevelFilterCount(lines: seq<string>, level: Level)
    ensures RecordsOf(Selected(lines, ByLevel(level))) == AtLevel(RecordsOf(lines), level)
    ensures |Selected(lines, ByLevel(level))| == multiset(LevelsOf(RecordsOf(lines)))[level]
  {
    SelectedRecords(lines, ByLevel(level));
    MatchingLevel(RecordsOf(lines), level);
    AtLevelCount(RecordsOf(lines), level);
  }

  /** `filter_by_tag` with the empty tag writes every line that parses. */
  lemma EmptyTagKeepsAll(lines: seq<string>)
    ensures RecordsOf(Selected(lines, ByTag(""))) == RecordsOf(lines)
    ensures |Selected(lines, ByTag(""))| == |RecordsOf(lines)|
  {
    SelectedRecords(lines, ByTag(""));
    MatchingEmptyTag(RecordsOf(lines));
  }

  lemma LowerIdempotent(s: string)
    ensures Lower(Lower(s)) == Lower(s)
  {
    assert forall i :: 0 <= i < |s| ==> LowerChar(LowerChar(s[i])) == LowerChar(s[i]);
  }

  /** The tag test ignores case on both sides. */
  lemma TagTestIgnoresCase(r: LogRecord, tag: string)
    ensures Wanted(ByTag(Lower(tag)), r) == Wanted(ByTag(tag), r)
    ensures Wanted(ByTag(tag), r) == Wanted(ByTag(tag), r.(tag := Lower(r.tag)))
  {
    LowerIdempotent(tag);
    LowerIdempotent(r.tag);
  }

  /** Different levels get different default file names. */
  lemma LevelFileNamesDiffer(a: Level, b: Level)
    requires a != b
    ensures LevelFileName(a) != LevelFileName(b)
  {
    assert LevelFileName(a)[7] != LevelFileName(b)[7];
  }

  /** A default tag file name holds no space, and two tags that differ only in space against
      underscore share one. */
  lemma TagFileNames(tag: string)
    ensures ' ' !in TagFileName(tag)[7..|TagFileName(tag)| - 4]
    ensures TagFileName(tag) == TagFileName(ReplaceChar(tag, ' ', '_'))
  {
    assert TagFileName(tag)[7..|TagFileName(tag)| - 4] == ReplaceChar(tag, ' ', '_');
    assert ReplaceChar(ReplaceChar(tag, ' ', '_'), ' ', '_') == ReplaceChar(tag, ' ', '_');
  }

  /** The characters a default tag file name does not tell apart. */
  predicate Joiner(c: char) {
    c == ' ' || c == '_'
  }

  /** Two tags share a default file name exactly when they differ only where both hold a
      space or an underscore. */
  lemma TagFileNamesShared(a: string, b: string)
    ensures TagFileName(a) == TagFileName(b) <==>
      |a| == |b| && forall i :: 0 <= i < |a| ==> a[i] == b[i] || (Joiner(a[i]) && Joiner(b[i]))
  {
    var ra, rb := ReplaceChar(a, ' ', '_'), ReplaceChar(b, ' ', '_');
    if TagFileName(a) == TagFileName(b) {
      var n := TagFileName(a);
      assert n[7..|n| - 4] == ra && n[7..|n| - 4] == rb by {
        assert TagFileName(b)[7..|TagFileName(b)| - 4] == rb;
      }
      forall i | 0 <= i < |a|
        ensures a[i] == b[i] || (Joiner(a[i]) && Joiner(b[i]))
      {
        assert ra[i] == rb[i];
      }
    }
    if |a| == |b| && forall i :: 0 <= i < |a| ==> a[i] == b[i] || (Joiner(a[i]) && Joiner(b[i])) {
      assert ra == rb by {
        forall i | 0 <= i < |a|
          ensures ra[i] == rb[i]
        {
        }
      }
    }
  }
}
