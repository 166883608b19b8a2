/**
 * The character classes, slicing and str methods the analyzer relies on:
 * Python's `\s`, `\d`, `str.strip()`, `str.lower()`, `str.startswith`,
 * `in` on strings, `str.replace` and `s[:n]`, all on ASCII.
 */
module Text {

  /** Python's `str.isspace()` (and the regex class `\s`) on ASCII: tab, line feed,
      vertical tab, form feed, carriage return, the separators 0x1C-0x1F and space. */
  predicate IsSpace(c: char) {
    9 <= c as int <= 13 || 28 <= c as int <= 32
  }

  predicate IsDigit(c: char) {
    '0' <= c <= '9'
  }

  datatype CharClass = Whitespace | Digit

  predicate InClass(c: char, k: CharClass) {
    match k
    case Whitespace => IsSpace(c)
    case Digit => IsDigit(c)
  }

  predicate AllIn(s: string, k: CharClass) {
    forall i :: 0 <= i < |s| ==> InClass(s[i], k)
  }

  /** Length of the longest prefix of `s` whose characters are all of class `k`:
      what a greedy `\s*` or `\d*` consumes. */
  function Span(s: string, k: CharClass): (n: nat)
    ensures n <= |s| && forall i :: 0 <= i < n ==> InClass(s[i], k)
    ensures n < |s| ==> !InClass(s[n], k)
  {
    if s != [] && InClass(s[0], k) then 1 + Span(s[1..], k) else 0
  }

  /** What a greedy run consumed is all of class `k`. */
  lemma SpanPrefix(s: string, k: CharClass)
    ensures AllIn(s[..Span(s, k)], k)
  {
    var n := Span(s, k);
    forall i | 0 <= i < n
      ensures InClass(s[..n][i], k)
    {
      assert s[..n][i] == s[i];
    }
  }

  /** A greedy run over a concatenation either stops inside the first part or runs on into the second. */
  lemma {:induction false} SpanAppend(a: string, b: string, k: CharClass)
    ensures Span(a + b, k) == if Span(a, k) < |a| then Span(a, k) else |a| + Span(b, k)
  {
    if a == [] {
      assert a + b == b;
    } else {
      assert (a + b)[1..] == a[1..] + b;
      SpanAppend(a[1..], b, k);
    }
  }

  lemma {:induction false} SpanAll(s: string, k: CharClass)
    requires AllIn(s, k)
    ensures Span(s, k) == |s|
  {
    if s != [] {
      SpanAll(s[1..], k);
    }
  }

  /** `s.startswith(p)` */
  predicate StartsWith(s: string, p: string) {
    |p| <= |s| && s[..|p|] == p
  }

  /** Python's `s[:n]` for a non-negative `n`. */
  function Take<T>(s: seq<T>, n: nat): (r: seq<T>)
    ensures |r| == if n <= |s| then n else |s|
    ensures r == s[..|r|]
  {
    if n <= |s| then s[..n] else s
  }

  /** Position of the first `c` in `s`, or `|s|` when there is none. */
  function IndexOf(s: string, c: char): (n: nat)
    ensures n <= |s| && c !in s[..n]
    ensures n < |s| ==> s[n] == c
  {
    if s == [] then 0
    else if s[0] == c then 0
    else
      var m := IndexOf(s[1..], c);
      assert s[..1 + m] == [s[0]] + s[1..][..m];
      1 + m
  }

  lemma IndexOfAfter(a: string, c: char, b: string)
    requires c !in a
    ensures IndexOf(a + [c] + b, c) == |a|
  {
    var s := a + [c] + b;
    assert s[|a|] == c;
    assert s[..|a|] == a;
  }

  /** What the regex `.*` matches: everything before the first line feed. */
  function UpToNewline(s: string): (r: string)
    ensures '\n' !in r && StartsWith(s, r)
    ensures '\n' !in s ==> r == s
  {
    s[..IndexOf(s, '\n')]
  }

  /** `s.lstrip()` */
  function TrimLeft(s: string): (r: string)
    ensures |r| <= |s| && r == s[|s| - |r|..] && AllIn(s[..|s| - |r|], Whitespace)
    ensures r != [] ==> !IsSpace(r[0])
  {
    s[Span(s, Whitespace)..]
  }

  /** `s.rstrip()` */
  function TrimRight(s: string): (r: string)
    ensures |r| <= |s| && r == s[..|r|] && AllIn(s[|r|..], Whitespace)
    ensures r != [] ==> !IsSpace(r[|r| - 1])
  {
    if s != [] && IsSpace(s[|s| - 1]) then
      var init := s[..|s| - 1];
      var r := TrimRight(init);
      assert s[|r|..] == init[|r|..] + [s[|s| - 1]];
      assert init[..|r|] == s[..|r|];
      r
    else s
  }

  predicate IsTrimmed(s: string) {
    s == [] || (!IsSpace(s[0]) && !IsSpace(s[|s| - 1]))
  }

  /** `s.strip()`: the text between the leading and the trailing whitespace. */
  function Strip(s: string): (r: string)
    ensures IsTrimmed(r)
    ensures IsTrimmed(s) ==> r == s
    ensures forall c :: c in r ==> c in s
  {
    var left := TrimLeft(s);
    var r := TrimRight(left);
    assert r != [] ==> r[0] == left[0];
    assert IsTrimmed(s) ==> Span(s, Whitespace) == 0;
    r
  }

  /** `strip()` removes white space at the two ends and nothing else: the result is the slice of `s`
      between a white-space prefix and a white-space suffix. */
  lemma StripSlice(s: string)
    ensures exists a :: (0 <= a <= a + |Strip(s)| <= |s| && Strip(s) == s[a..a + |Strip(s)|]
                         && AllIn(s[..a], Whitespace) && AllIn(s[a + |Strip(s)|..], Whitespace))
  {
    var left := TrimLeft(s);
    var a := |s| - |left|;
    var r := TrimRight(left);
    assert r == Strip(s);
    assert left == s[a..];
    assert r == s[a..a + |r|];
    assert left[|r|..] == s[a + |r|..];
  }

  /** Stripping a line that starts with a non-space and ends in one space after a non-space
      removes just that space. */
  lemma StripDropsOneSpace(s: string)
    requires s != [] && !IsSpace(s[0]) && !IsSpace(s[|s| - 1])
    ensures Strip(s + " ") == s
  {
    var t := s + " ";
    assert Span(t, Whitespace) == 0;
    assert TrimLeft(t) == t;
    assert t[..|t| - 1] == s;
    assert TrimRight(s) == s;
  }

  /** ASCII `c.lower()` */
  function LowerChar(c: char): char {
    if 'A' <= c <= 'Z' then (c as int + 32) as char else c
  }

  /** ASCII `s.lower()` */
  function Lower(s: string): (r: string)
    ensures |r| == |s|
    ensures forall i :: 0 <= i < |s| ==> r[i] == LowerChar(s[i])
  {
    seq(|s|, i requires 0 <= i < |s| => LowerChar(s[i]))
  }

  /** `sub` occurs in `s` starting at position `i`. */
  predicate OccursAt(s: string, sub: string, i: int) {
    0 <= i <= |s| - |sub| && s[i..i + |sub|] == sub
  }

  /** `sub in s`: some position of `s` starts a copy of `sub`. */
  predicate Contains(s: string, sub: string)
    decreases |s|
  {
    StartsWith(s, sub) || (s != [] && Contains(s[1..], sub))
  }

  /** The recursive test agrees with "`sub` occurs at some position `i`". */
  lemma {:induction false} ContainsAt(s: string, sub: string)
    ensures Contains(s, sub) <==> exists i :: OccursAt(s, sub, i)
    decreases |s|
  {
    if StartsWith(s, sub) {
      assert OccursAt(s, sub, 0);
    }
    if s != [] {
      ContainsAt(s[1..], sub);
      if Contains(s[1..], sub) {
        var i :| OccursAt(s[1..], sub, i);
        assert s[i + 1..i + 1 + |sub|] == s[1..][i..i + |sub|];
        assert OccursAt(s, sub, i + 1);
      }
      if exists i :: OccursAt(s, sub, i) {
        var i :| OccursAt(s, sub, i);
        if i > 0 {
          assert s[1..][i - 1..i - 1 + |sub|] == s[i..i + |sub|];
          assert OccursAt(s[1..], sub, i - 1);
        }
      }
    }
  }

  /** `s.replace(old, new)` for single characters. */
  function ReplaceChar(s: string, from: char, to: char): (r: string)
    ensures |r| == |s| && (from != to ==> from !in r)
    ensures forall i :: 0 <= i < |s| ==> r[i] == if s[i] == from then to else s[i]
  {
    seq(|s|, i requires 0 <= i < |s| => if s[i] == from then to else s[i])
  }
}
