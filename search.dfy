/**
 * `search_keyword`: scan the lines in order, collect each line that contains the keyword
 * (ignoring case unless asked not to) with its 1-based line number, and stop as soon as
 * twenty have been found.
 */
module Search {
  import opened Text

  /** Most results a search shows. */
  const ResultLimit: nat := 20

  predicate Matches(line: string, keyword: string, caseSensitive: bool) {
    if caseSensitive then Contains(line, keyword) else Contains(Lower(line), Lower(keyword))
  }

  /** The 1-based numbers of the matching lines of the file, in file order. */
  function Hits(lines: seq<string>, keyword: string, caseSensitive: bool): (hits: seq<nat>)
    ensures forall j :: 0 <= j < |hits| ==> 1 <= hits[j] <= |lines|
  {
    if lines == [] then []
    else
      var n := |lines| - 1;
      Hits(lines[..n], keyword, caseSensitive) + if Matches(lines[n], keyword, caseSensitive) then [n + 1] else []
  }

  lemma HitsSnoc(lines: seq<string>, keyword: string, caseSensitive: bool, i: nat)
    requires i < |lines|
    ensures Hits(lines[..i + 1], keyword, caseSensitive)
      == Hits(lines[..i], keyword, caseSensitive) + if Matches(lines[i], keyword, caseSensitive) then [i + 1] else []
  {
    assert lines[..i + 1][..i] == lines[..i];
  }

  /** The hits of a prefix of the file are a prefix of the hits of the file. */
  lemma {:induction false} HitsPrefix(lines: seq<string>, keyword: string, caseSensitive: bool, n: nat)
    requires n <= |lines|
    ensures Hits(lines[..n], keyword, caseSensitive) <= Hits(lines, keyword, caseSensitive)
    decreases |lines| - n
  {
    if n < |lines| {
      HitsPrefix(lines, keyword, caseSensitive, n + 1);
      HitsSnoc(lines, keyword, caseSensitive, n);
    } else {
      assert lines[..n] == lines;
    }
  }

  /** Every line of the file as the search prints it: stripped. */
  function Stripped(lines: seq<string>): (shown: seq<string>)
    ensures |shown| == |lines| && forall i :: 0 <= i < |lines| ==> shown[i] == Strip(lines[i])
  {
    seq(|lines|, i requires 0 <= i < |lines| => Strip(lines[i]))
  }

  /** What the search prints for some hits: each line number with the printed form of its line
      (hits are 1-based line numbers; a number outside the file has nothing to print). */
  function Printed<T>(shown: seq<T>, hits: seq<nat>, none: T): (r: seq<(nat, T)>)
    ensures |r| == |hits|
  {
    if hits == [] then []
    else
      var k := hits[|hits| - 1];
      Printed(shown, hits[..|hits| - 1], none) + [(k, if 1 <= k <= |shown| then shown[k - 1] else none)]
  }

  /** Entry `j` of what is printed is hit `j` with the printed form of its line. */
  lemma {:induction false} PrintedEntries<T>(shown: seq<T>, hits: seq<nat>, none: T)
    requires forall j :: 0 <= j < |hits| ==> 1 <= hits[j] <= |shown|
    ensures forall j :: 0 <= j < |hits| ==> Printed(shown, hits, none)[j] == (hits[j], shown[hits[j] - 1])
  {
    if hits != [] {
      var n := |hits| - 1;
      var init := hits[..n];
      var r := Printed(shown, hits, none);
      assert r == Printed(shown, init, none) + [(hits[n], shown[hits[n] - 1])];
      PrintedEntries(shown, init, none);
      assert forall j :: 0 <= j < n ==> r[j] == Printed(shown, init, none)[j] && init[j] == hits[j];
    }
  }

  lemma PrintedSnoc<T>(shown: seq<T>, hits: seq<nat>, k: nat, none: T)
    requires 1 <= k <= |shown|
    ensures Printed(shown, hits + [k], none) == Printed(shown, hits, none) + [(k, shown[k - 1])]
  {
    var longer := hits + [k];
    assert longer[..|longer| - 1] == hits by {
      assert forall j :: 0 <= j < |hits| ==> longer[j] == hits[j];
    }
  }

  /** Where the scan ends: either at the twentieth hit or, with fewer hits, at the end of the file. */
  lemma ScanEnd(lines: seq<string>, keyword: string, caseSensitive: bool, hits: seq<nat>, scanned: nat, stopped: bool)
    requires scanned <= |lines| && hits == Hits(lines[..scanned], keyword, caseSensitive)
    requires stopped ==> |hits| == ResultLimit && hits[ResultLimit - 1] == scanned
    requires !stopped ==> scanned == |lines| && |hits| < ResultLimit
    ensures hits == Take(Hits(lines, keyword, caseSensitive), ResultLimit)
    ensures stopped <==> |Hits(lines, keyword, caseSensitive)| >= ResultLimit
    ensures stopped ==> scanned == Hits(lines, keyword, caseSensitive)[ResultLimit - 1]
  {
    HitsPrefix(lines, keyword, caseSensitive, scanned);
    if !stopped {
      assert lines[..scanned] == lines;
    }
  }

  /** Reading line `i + 1`: a match adds its number to the hits and its stripped text to the output. */
  lemma SearchStep(lines: seq<string>, keyword: string, caseSensitive: bool, i: nat, hits: seq<nat>)
    requires i < |lines| && hits == Hits(lines[..i], keyword, caseSensitive)
    ensures Hits(lines[..i + 1], keyword, caseSensitive)
      == hits + if Matches(lines[i], keyword, caseSensitive) then [i + 1] else []
    ensures Printed(Stripped(lines), hits + [i + 1], "") == Printed(Stripped(lines), hits, "") + [(i + 1, Strip(lines[i]))]
  {
    HitsSnoc(lines, keyword, caseSensitive, i);
    PrintedSnoc(Stripped(lines), hits, i + 1, "");
  }

  /**
   * `search_keyword`: the results printed, whether the search stopped at the limit (and printed
   * its "showing first 20 results" notice), and how many lines it read.
   */
  method SearchKeyword(lines: seq<string>, keyword: string, caseSensitive: bool)
    returns (results: seq<(nat, string)>, stopped: bool, scanned: nat)
    ensures results == Printed(Stripped(lines), Take(Hits(lines, keyword, caseSensitive), ResultLimit), "")
    ensures stopped <==> |Hits(lines, keyword, caseSensitive)| >= ResultLimit
    ensures stopped ==> scanned == Hits(lines, keyword, caseSensitive)[ResultLimit - 1]
    ensures !stopped ==> scanned == |lines|
  {
    results, stopped, scanned := [], false, 0;
    ghost var hits: seq<nat> := [];
    ghost var shown := Stripped(lines);
    for i := 0 to |lines|
      invariant scanned == i && !stopped
      invariant hits == Hits(lines[..i], keyword, caseSensitive) && |hits| < ResultLimit
      invariant results == Printed(shown, hits, "")
    {
      var hit := Matches(lines[i], keyword, caseSensitive);
      SearchStep(lines, keyword, caseSensitive, i, hits);
      if hit {
        results := results + [(i + 1, Strip(lines[i]))];
        hits := hits + [i + 1];
      }
      scanned := i + 1;
      if |results| >= ResultLimit {
        stopped := true;
        break;
      }
    }
    ScanEnd(lines, keyword, caseSensitive, hits, scanned, stopped);
  }

  /** A line number is a hit exactly when it numbers a matching line of the file. */
  lemma {:induction false} HitsMembers(lines: seq<string>, keyword: string, caseSensitive: bool, k: nat)
    ensures k in Hits(lines, keyword, caseSensitive) <==> 1 <= k <= |lines| && Matches(lines[k - 1], keyword, caseSensitive)
  {
    if lines != [] {
      var n := |lines| - 1;
      var before := Hits(lines[..n], keyword, caseSensitive);
      var hit := Matches(lines[n], keyword, caseSensitive);
      assert Hits(lines, keyword, caseSensitive) == before + if hit then [n + 1] else [];
      HitsMembers(lines[..n], keyword, caseSensitive, k);
      if 1 <= k <= n {
        assert lines[..n][k - 1] == lines[k - 1];
        assert k in Hits(lines, keyword, caseSensitive) <==> k in before;
      } else {
        assert k !in before;
      }
    }
  }

  /** Hits come in file order: their line numbers strictly increase. */
  lemma {:induction false} HitsOrdered(lines: seq<string>, keyword: string, caseSensitive: bool)
    ensures forall i, j :: 0 <= i < j < |Hits(lines, keyword, caseSensitive)| ==>
      Hits(lines, keyword, caseSensitive)[i] < Hits(lines, keyword, caseSensitive)[j]
  {
    if lines != [] {
      var n := |lines| - 1;
      var init := Hits(lines[..n], keyword, caseSensitive);
      HitsOrdered(lines[..n], keyword, caseSensitive);
      var m := Hits(lines, keyword, caseSensitive);
      assert m == init + if Matches(lines[n], keyword, caseSensitive) then [n + 1] else [];
      forall i, j | 0 <= i < j < |m|
        ensures m[i] < m[j]
      {
        assert m[i] == init[i];
      }
    }
  }

  /** Lower-casing both sides keeps an occurrence. */
  lemma LowerKeepsOccurrence(s: string, sub: string, i: int)
    requires OccursAt(s, sub, i)
    ensures OccursAt(Lower(s), Lower(sub), i)
  {
    assert Lower(s)[i..i + |sub|] == Lower(sub);
  }

  /** A case-sensitive match is also a case-insensitive one. */
  lemma SensitiveMatchIsInsensitive(line: string, keyword: string)
    ensures Matches(line, keyword, true) ==> Matches(line, keyword, false)
  {
    ContainsAt(line, keyword);
    ContainsAt(Lower(line), Lower(keyword));
    if Contains(line, keyword) {
      var i :| OccursAt(line, keyword, i);
      LowerKeepsOccurrence(line, keyword, i);
    }
  }
}
