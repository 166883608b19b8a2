/**
 * The record stream every operation of the analyzer reads: the parsed records of a
 * file's lines in file order (lines that do not parse are skipped), and the projections
 * the aggregations take of them.
 */
module Records {
  import opened Wrappers
  import opened Text
  import opened LogLine

  /** The record of one line, as a list of zero or one records. */
  function Parsed(line: string): seq<LogRecord> {
    match Parse(line)
    case None => []
    case Some(r) => [r]
  }

  /** The records of the lines that parse, in file order. */
  function RecordsOf(lines: seq<string>): seq<LogRecord> {
    if lines == [] then [] else RecordsOf(lines[..|lines| - 1]) + Parsed(lines[|lines| - 1])
  }

  /** The records of one level, in order. */
  function AtLevel(rs: seq<LogRecord>, level: Level): seq<LogRecord> {
    if rs == [] then []
    else AtLevel(rs[..|rs| - 1], level) + if rs[|rs| - 1].level == level then [rs[|rs| - 1]] else []
  }

  function LevelsOf(rs: seq<LogRecord>): (ls: seq<Level>)
    ensures |ls| == |rs| && forall i :: 0 <= i < |rs| ==> ls[i] == rs[i].level
  {
    seq(|rs|, i requires 0 <= i < |rs| => rs[i].level)
  }

  function TagsOf(rs: seq<LogRecord>): (ts: seq<string>)
    ensures |ts| == |rs| && forall i :: 0 <= i < |rs| ==> ts[i] == rs[i].tag
  {
    seq(|rs|, i requires 0 <= i < |rs| => rs[i].tag)
  }

  /** `f"{tag}: {message[:width]}"`: the line shown for an error or warning, and the key
      under which near-identical issues are grouped. */
  function Headline(r: LogRecord, width: nat): string {
    r.tag + ": " + Take(r.message, width)
  }

  function Headlines(rs: seq<LogRecord>, width: nat): (hs: seq<string>)
    ensures |hs| == |rs| && forall i :: 0 <= i < |rs| ==> hs[i] == Headline(rs[i], width)
  {
    seq(|rs|, i requires 0 <= i < |rs| => Headline(rs[i], width))
  }

  lemma RecordsOfSnoc(lines: seq<string>, i: nat)
    requires i < |lines|
    ensures RecordsOf(lines[..i + 1]) == RecordsOf(lines[..i]) + Parsed(lines[i])
  {
    assert lines[..i + 1][..i] == lines[..i];
  }

  lemma ProjectionsSnoc(rs: seq<LogRecord>, r: LogRecord, width: nat)
    ensures LevelsOf(rs + [r]) == LevelsOf(rs) + [r.level]
    ensures TagsOf(rs + [r]) == TagsOf(rs) + [r.tag]
    ensures Headlines(rs + [r], width) == Headlines(rs, width) + [Headline(r, width)]
  {
  }

  lemma AtLevelSnoc(rs: seq<LogRecord>, r: LogRecord, level: Level)
    ensures AtLevel(rs + [r], level) == AtLevel(rs, level) + if r.level == level then [r] else []
  {
    assert (rs + [r])[..|rs|] == rs;
  }

  /** The records of a level are exactly the records carrying it. */
  lemma {:induction false} AtLevelMembers(rs: seq<LogRecord>, level: Level, r: LogRecord)
    ensures r in AtLevel(rs, level) <==> r in rs && r.level == level
  {
    if rs != [] {
      var init := rs[..|rs| - 1];
      AtLevelMembers(init, level, r);
      assert rs == init + [rs[|rs| - 1]];
    }
  }

  /** A level has as many records as its letter occurs among the levels. */
  lemma {:induction false} AtLevelCount(rs: seq<LogRecord>, level: Level)
    ensures |AtLevel(rs, level)| == multiset(LevelsOf(rs))[level]
  {
    if rs != [] {
      var init := rs[..|rs| - 1];
      AtLevelCount(init, level);
      assert rs == init + [rs[|rs| - 1]];
      ProjectionsSnoc(init, rs[|rs| - 1], 0);
    }
  }

  /** Every record has exactly one of the six levels. */
  lemma {:induction false} LevelsPartition(ls: seq<Level>)
    ensures multiset(ls)[Error] + multiset(ls)[Warning] + multiset(ls)[Info]
          + multiset(ls)[Debug] + multiset(ls)[Verbose] + multiset(ls)[Fatal] == |ls|
  {
    if ls != [] {
      LevelsPartition(ls[1..]);
      assert ls == [ls[0]] + ls[1..];
      assert multiset(ls) == multiset{ls[0]} + multiset(ls[1..]);
      match ls[0]
      case Error =>
      case Warning =>
      case Info =>
      case Debug =>
      case Verbose =>
      case Fatal =>
    }
  }
}
