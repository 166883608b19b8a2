/**
 * `LogcatAnalyzer.parse_logcat_line`: one raw logcat line in the `time` format,
 * `MM-DD HH:MM:SS.mmm L/TAG( PID): message`, becomes a record, or nothing.
 *
 * The regular expression
 *   (\d{2}-\d{2}\s+\d{2}:\d{2}:\d{2}\.\d+)\s+([VDIWEF])/([^(]+)\(\s*(\d+)\):\s*(.*)
 * is matched from the start of the stripped line. Every repetition but the last `\s*` is
 * followed by a character it cannot consume; the last `\s*` is followed by `(.*)`, which
 * also matches the empty string, so that `\s*` never has to give anything back either. The
 * match therefore never backtracks, and it is written here as a scanner that takes every
 * run greedily.
 */
module LogLine {
  import opened Wrappers
  import opened Text

  /** The six logcat priorities, `[VDIWEF]`. */
  datatype Level = Verbose | Debug | Info | Warning | Error | Fatal {

    function Letter(): char {
      match this
      case Verbose => 'V'
      case Debug => 'D'
      case Info => 'I'
      case Warning => 'W'
      case Error => 'E'
      case Fatal => 'F'
    }
  }

  /** The regex class `[VDIWEF]`. */
  function LevelOf(c: char): (l: Option<Level>)
    ensures l.Some? <==> c in "VDIWEF"
    ensures l.Some? ==> l.value.Letter() == c
  {
    if c == 'V' then Some(Verbose)
    else if c == 'D' then Some(Debug)
    else if c == 'I' then Some(Info)
    else if c == 'W' then Some(Warning)
    else if c == 'E' then Some(Error)
    else if c == 'F' then Some(Fatal)
    else None
  }

  /** One parsed line: the dictionary the analyzer builds from the five groups. */
  datatype LogRecord = LogRecord(timestamp: string, level: Level, tag: string, pid: string, message: string)

  /** Lines logcat prints between buffers, such as `--------- beginning of main`. */
  const Separator: string := "--------- beginning of"

  /** `\d{2}-\d{2}` at the start of `s`. */
  predicate IsDate(s: string) {
    |s| >= 5 && IsDigit(s[0]) && IsDigit(s[1]) && s[2] == '-' && IsDigit(s[3]) && IsDigit(s[4])
  }

  /** `\d{2}:\d{2}:\d{2}\.` at the start of `s`. */
  predicate IsClock(s: string) {
    |s| >= 9 && IsDigit(s[0]) && IsDigit(s[1]) && s[2] == ':' && IsDigit(s[3]) && IsDigit(s[4])
    && s[5] == ':' && IsDigit(s[6]) && IsDigit(s[7]) && s[8] == '.'
  }

  /** Length of the prefix of `s` matched by `\d{2}-\d{2}\s+\d{2}:\d{2}:\d{2}\.\d+`, if any. */
  function TimestampLength(s: string): (n: Option<nat>)
    ensures n.Some? ==> n.value <= |s| && (n.value < |s| ==> !IsDigit(s[n.value]))
  {
    if !IsDate(s) then None
    else
      var gap := Span(s[5..], Whitespace);
      var clock := 5 + gap;
      if gap == 0 || !IsClock(s[clock..]) then None
      else
        var frac := Span(s[clock + 9..], Digit);
        if frac == 0 then None else Some(clock + 9 + frac)
  }

  /** `ts` is exactly one timestamp, `MM-DD HH:MM:SS.fff`. */
  predicate IsTimestamp(ts: string) {
    TimestampLength(ts) == Some(|ts|)
  }

  /** Whether a string starts with a date depends only on its first five characters. */
  lemma DateSame(s: string, t: string)
    requires |s| >= 5 && |t| >= 5 && s[..5] == t[..5]
    ensures IsDate(s) == IsDate(t)
  {
    assert s[0] == t[0] && s[1] == t[1] && s[2] == t[2] && s[3] == t[3] && s[4] == t[4] by {
      assert forall i :: 0 <= i < 5 ==> s[..5][i] == s[i] && t[..5][i] == t[i];
    }
  }

  /** Whether a string starts with a clock depends only on its first nine characters. */
  lemma ClockSame(s: string, t: string)
    requires |s| >= 9 && |t| >= 9 && s[..9] == t[..9]
    ensures IsClock(s) == IsClock(t)
  {
    assert forall i :: 0 <= i < 9 ==> s[i] == t[i] by {
      assert forall i :: 0 <= i < 9 ==> s[..9][i] == s[i] && t[..9][i] == t[i];
    }
  }

  /** The pieces of a recognised timestamp: date, whitespace, clock, fraction digits. */
  predicate TimestampShape(s: string, gap: nat, frac: nat) {
    IsDate(s) && gap == Span(s[5..], Whitespace) && gap > 0
    && IsClock(s[5 + gap..]) && 5 + gap + 9 <= |s| && frac == Span(s[5 + gap + 9..], Digit) && frac > 0
  }

  lemma TimestampPieces(s: string, gap: nat, frac: nat)
    requires TimestampShape(s, gap, frac)
    ensures TimestampLength(s) == Some(5 + gap + 9 + frac)
  {
  }

  lemma TimestampPiecesOf(s: string) returns (gap: nat, frac: nat)
    requires TimestampLength(s).Some?
    ensures TimestampShape(s, gap, frac) && TimestampLength(s).value == 5 + gap + 9 + frac
  {
    gap := Span(s[5..], Whitespace);
    frac := Span(s[5 + gap + 9..], Digit);
  }

  lemma DateAfter(a: string, b: string)
    requires |a| >= 5
    ensures IsDate(a + b) == IsDate(a)
  {
    assert (a + b)[..5] == a[..5];
    DateSame(a + b, a);
  }

  lemma ClockAfter(a: string, b: string, i: nat)
    requires i + 9 <= |a|
    ensures IsClock((a + b)[i..]) == IsClock(a[i..])
  {
    assert (a + b)[i..][..9] == a[i..][..9];
    ClockSame((a + b)[i..], a[i..]);
  }

  lemma SpanAfter(a: string, b: string, i: nat, k: CharClass)
    requires i <= |a|
    ensures Span((a + b)[i..], k) == if Span(a[i..], k) < |a| - i then Span(a[i..], k) else |a| - i + Span(b, k)
  {
    assert (a + b)[i..] == a[i..] + b;
    SpanAppend(a[i..], b, k);
  }

  /** Text after a timestamp that does not continue its fraction changes none of its pieces. */
  lemma TimestampShapeAppend(a: string, b: string, gap: nat, frac: nat)
    requires |a| == 5 + gap + 9 + frac && (b == [] || !IsDigit(b[0]))
    ensures TimestampShape(a + b, gap, frac) <==> TimestampShape(a, gap, frac)
  {
    var c := 5 + gap;
    DateAfter(a, b);
    SpanAfter(a, b, 5, Whitespace);
    ClockAfter(a, b, c);
    SpanAfter(a, b, c + 9, Digit);
    assert Span(b, Digit) == 0;
  }

  /** A timestamp followed by anything but a digit is recognised as exactly that timestamp. */
  lemma TimestampExtend(a: string, b: string)
    requires IsTimestamp(a) && (b == [] || !IsDigit(b[0]))
    ensures TimestampLength(a + b) == Some(|a|)
  {
    var gap, frac := TimestampPiecesOf(a);
    TimestampShapeAppend(a, b, gap, frac);
    TimestampPieces(a + b, gap, frac);
  }

  /** What the pattern recognises as a timestamp is one. */
  lemma TimestampPrefix(s: string)
    requires TimestampLength(s).Some?
    ensures IsTimestamp(s[..TimestampLength(s).value])
  {
    var gap, frac := TimestampPiecesOf(s);
    var n := TimestampLength(s).value;
    assert s == s[..n] + s[n..];
    TimestampShapeAppend(s[..n], s[n..], gap, frac);
    TimestampPieces(s[..TimestampLength(s).value], gap, frac);
  }

  /** `ts` split as `\d{2}-\d{2}`, a white-space gap, `\d{2}:\d{2}:\d{2}\.` and fraction digits. */
  predicate TimestampSplit(ts: string, gap: nat, frac: nat) {
    && |ts| == 5 + gap + 9 + frac && gap > 0 && frac > 0
    && IsDate(ts) && AllIn(ts[5..5 + gap], Whitespace)
    && IsClock(ts[5 + gap..]) && AllIn(ts[5 + gap + 9..], Digit)
  }

  /** `ts` matches `\d{2}-\d{2}\s+\d{2}:\d{2}:\d{2}\.\d+` as a whole. */
  ghost predicate TimestampPattern(ts: string) {
    exists gap: nat, frac: nat :: TimestampSplit(ts, gap, frac)
  }

  /** A timestamp the scanner accepts splits as the pattern says. */
  lemma TimestampSplitOf(ts: string) returns (gap: nat, frac: nat)
    requires IsTimestamp(ts)
    ensures TimestampSplit(ts, gap, frac)
  {
    gap, frac := TimestampPiecesOf(ts);
    var run := ts[5..];
    assert ts[5..5 + gap] == run[..gap];
  }

  /** A string split as the pattern says is a timestamp the scanner accepts. */
  lemma SplitTimestamp(ts: string, gap: nat, frac: nat)
    requires TimestampSplit(ts, gap, frac)
    ensures IsTimestamp(ts)
  {
    assert Span(ts[5..], Whitespace) == gap by {
      var blank := ts[5..5 + gap];
      var clock := ts[5 + gap..];
      assert ts[5..] == blank + clock;
      SpanAll(blank, Whitespace);
      SpanAppend(blank, clock, Whitespace);
    }
    SpanAll(ts[5 + gap + 9..], Digit);
    TimestampPieces(ts, gap, frac);
  }

  /** The scanner's notion of a timestamp is exactly the pattern. */
  lemma TimestampMeaning(ts: string)
    ensures IsTimestamp(ts) <==> TimestampPattern(ts)
  {
    if IsTimestamp(ts) {
      var gap, frac := TimestampSplitOf(ts);
    }
    if TimestampPattern(ts) {
      var gap: nat, frac: nat :| TimestampSplit(ts, gap, frac);
      SplitTimestamp(ts, gap, frac);
    }
  }

  /** The tag group after `.strip()`: no parenthesis, no edge whitespace. */
  predicate TagShaped(tag: string) {
    '(' !in tag && IsTrimmed(tag)
  }

  /** The pid group `\d+`. */
  predicate PidShaped(pid: string) {
    |pid| > 0 && AllIn(pid, Digit)
  }

  /** The message group `.*` after `\s*`: no leading whitespace, no line feed. */
  predicate MessageShaped(message: string) {
    (message != [] ==> !IsSpace(message[0])) && '\n' !in message
  }

  /** What a successful parse guarantees about its record. */
  predicate Shaped(r: LogRecord) {
    IsTimestamp(r.timestamp) && TagShaped(r.tag) && PidShaped(r.pid) && MessageShaped(r.message)
  }

  /** `parse_logcat_line`: separator lines and lines that do not match are `None`. */
  function Parse(line: string): (r: Option<LogRecord>)
    ensures StartsWith(line, Separator) ==> r == None
    ensures r.Some? ==> Shaped(r.value)
  {
    if StartsWith(line, Separator) then None else ParseStripped(Strip(line))
  }

  /** `re.match(pattern, s)` for an already stripped line `s`. */
  function ParseStripped(s: string): (r: Option<LogRecord>)
    ensures r.Some? ==> Shaped(r.value)
  {
    match TimestampLength(s)
    case None => None
    case Some(n) =>
      TimestampPrefix(s);
      ParseHeader(s[..n], s[n..])
  }

  /** The rest of the pattern after the timestamp: `\s+([VDIWEF])/([^(]+)\(` and what follows. */
  function ParseHeader(timestamp: string, s: string): (r: Option<LogRecord>)
    ensures r.Some? ==> r.value.timestamp == timestamp
    ensures r.Some? ==> TagShaped(r.value.tag) && PidShaped(r.value.pid) && MessageShaped(r.value.message)
  {
    var gap := Span(s, Whitespace);
    if gap == 0 || |s| < gap + 2 || LevelOf(s[gap]).None? || s[gap + 1] != '/' then None
    else
      var rest := s[gap + 2..];
      var open := IndexOf(rest, '(');
      if open == 0 || open == |rest| then None
      else ParsePid(timestamp, LevelOf(s[gap]).value, Strip(rest[..open]), rest[open + 1..])
  }

  /** `\s*(\d+)\):\s*(.*)` after the opening parenthesis. */
  function ParsePid(timestamp: string, level: Level, tag: string, s: string): (r: Option<LogRecord>)
    ensures r.Some? ==> r.value.timestamp == timestamp && r.value.level == level && r.value.tag == tag
    ensures r.Some? ==> PidShaped(r.value.pid) && MessageShaped(r.value.message)
  {
    var pad := Span(s, Whitespace);
    var digits := Span(s[pad..], Digit);
    var after := s[pad + digits..];
    if digits == 0 || |after| < 2 || after[0] != ')' || after[1] != ':' then None
    else
      var body := after[2..];
      assert s[pad..pad + digits] == s[pad..][..digits];
      SpanPrefix(s[pad..], Digit);
      Some(LogRecord(timestamp, level, tag, s[pad..pad + digits], UpToNewline(body[Span(body, Whitespace)..])))
  }

  /** A separator line would fail the pattern anyway: the check before stripping only saves work. */
  lemma SeparatorFailsPattern(line: string)
    requires StartsWith(line, Separator)
    ensures ParseStripped(Strip(line)) == None
  {
    assert line[0] == '-';
    assert Span(line, Whitespace) == 0;
    assert TrimLeft(line) == line;
    assert Strip(line) != [] && Strip(line)[0] == '-';
  }

  /** The line logcat prints for a record, with `pad` between the parenthesis and the pid. */
  function Format(r: LogRecord, pad: string): string {
    r.timestamp + " " + [r.level.Letter()] + "/" + r.tag + "(" + pad + r.pid + "): " + r.message
  }

  /** The records logcat can print so that they read back unchanged. */
  predicate Printable(r: LogRecord) {
    && IsTimestamp(r.timestamp)
    && r.tag != [] && TagShaped(r.tag)
    && PidShaped(r.pid)
    && IsTrimmed(r.message) && '\n' !in r.message
  }

  /** What follows the opening parenthesis of a printed record, once stripped. */
  function AfterOpen(r: LogRecord, pad: string): string {
    pad + r.pid + "):" + (if r.message == [] then "" else " " + r.message)
  }

  /** What follows the timestamp of a printed record, once stripped. */
  function AfterTimestamp(r: LogRecord, pad: string): string {
    " " + [r.level.Letter()] + "/" + r.tag + "(" + AfterOpen(r, pad)
  }

  /** A printed record up to the colon after the pid. */
  function Head(r: LogRecord, pad: string): string {
    r.timestamp + (" " + [r.level.Letter()] + "/" + r.tag + "(" + pad + r.pid + "):")
  }

  lemma FormatPieces(r: LogRecord, pad: string)
    ensures Format(r, pad) == Head(r, pad) + (" " + r.message)
    ensures r.timestamp + AfterTimestamp(r, pad) == Head(r, pad) + (if r.message == [] then "" else " " + r.message)
  {
  }

  /** Stripping a printed line drops at most the space a blank message leaves behind. */
  lemma StripFormat(r: LogRecord, pad: string)
    requires IsDate(r.timestamp) && IsTrimmed(r.message)
    ensures Strip(Format(r, pad)) == r.timestamp + AfterTimestamp(r, pad)
    ensures !StartsWith(Format(r, pad), Separator)
  {
    var head := Head(r, pad);
    FormatPieces(r, pad);
    assert head[0] == r.timestamp[0] && head[|head| - 1] == ':';
    if r.message == [] {
      assert Format(r, pad) == head + " ";
      StripDropsOneSpace(head);
    } else {
      var line := head + (" " + r.message);
      assert line[0] == head[0] && line[|line| - 1] == r.message[|r.message| - 1];
      assert IsTrimmed(line);
    }
    assert Separator[0] == '-';
  }

  /** Scanning `\s*(\d+)` over padding, digits and a non-digit. */
  lemma ScanPid(pad: string, pid: string, rest: string)
    requires AllIn(pad, Whitespace) && PidShaped(pid) && (rest == [] || !IsDigit(rest[0]))
    ensures Span(pad + pid + rest, Whitespace) == |pad|
    ensures Span((pad + pid + rest)[|pad|..], Digit) == |pid|
    ensures (pad + pid + rest)[|pad|..|pad| + |pid|] == pid
    ensures (pad + pid + rest)[|pad| + |pid|..] == rest
  {
    var s := pad + (pid + rest);
    assert s == pad + pid + rest;
    SpanAll(pad, Whitespace);
    SpanAppend(pad, pid + rest, Whitespace);
    assert s[|pad|..] == pid + rest;
    SpanAll(pid, Digit);
    SpanAppend(pid, rest, Digit);
  }

  /** Scanning `\s*(.*)` over a space and a trimmed one-line message. */
  lemma ScanMessage(message: string)
    requires IsTrimmed(message) && '\n' !in message
    ensures var body := if message == [] then "" else " " + message;
      UpToNewline(body[Span(body, Whitespace)..]) == message
  {
    if message != [] {
      var body := " " + message;
      assert Span(body, Whitespace) == 1;
      assert body[1..] == message;
    }
  }

  /** `ParsePid` over padding, a pid and `):` followed by the rest of the line. */
  lemma ParsePidPieces(timestamp: string, level: Level, tag: string, pad: string, pid: string, tail: string)
    requires AllIn(pad, Whitespace) && PidShaped(pid)
    ensures ParsePid(timestamp, level, tag, pad + pid + ("):" + tail))
      == Some(LogRecord(timestamp, level, tag, pid, UpToNewline(tail[Span(tail, Whitespace)..])))
  {
    var closing := "):" + tail;
    ScanPid(pad, pid, closing);
    assert closing[2..] == tail;
  }

  lemma ParsePidFormat(r: LogRecord, pad: string)
    requires PidShaped(r.pid) && IsTrimmed(r.message) && '\n' !in r.message && AllIn(pad, Whitespace)
    ensures ParsePid(r.timestamp, r.level, r.tag, AfterOpen(r, pad)) == Some(r)
  {
    var tail := if r.message == [] then "" else " " + r.message;
    assert AfterOpen(r, pad) == pad + r.pid + ("):" + tail);
    ParsePidPieces(r.timestamp, r.level, r.tag, pad, r.pid, tail);
    ScanMessage(r.message);
  }

  /** Scanning `\s+([VDIWEF])/([^(]+)\(` over one space, a level letter, a slash and a tag. */
  lemma ScanHeader(level: Level, tag: string, afterOpen: string)
    requires tag != [] && '(' !in tag
    ensures var s := " " + [level.Letter()] + "/" + tag + "(" + afterOpen;
      && Span(s, Whitespace) == 1 && |s| >= 3 && s[1] == level.Letter() && s[2] == '/'
      && IndexOf(s[3..], '(') == |tag| && s[3..][..|tag|] == tag && s[3..][|tag| + 1..] == afterOpen
  {
    var s := " " + [level.Letter()] + "/" + tag + "(" + afterOpen;
    var rest := tag + ['('] + afterOpen;
    assert s[1..] == [level.Letter()] + "/" + rest;
    assert s[3..] == rest;
    IndexOfAfter(tag, '(', afterOpen);
    assert rest[..|tag|] == tag && rest[|tag| + 1..] == afterOpen;
  }

  /** `ParseHeader` once its scans are known. */
  lemma ParseHeaderStep(timestamp: string, s: string, open: nat)
    requires Span(s, Whitespace) == 1 && |s| >= 3 && LevelOf(s[1]).Some? && s[2] == '/'
    requires IndexOf(s[3..], '(') == open && 0 < open < |s[3..]|
    ensures ParseHeader(timestamp, s)
         == ParsePid(timestamp, LevelOf(s[1]).value, Strip(s[3..][..open]), s[3..][open + 1..])
  {
  }

  lemma ParseHeaderFormat(r: LogRecord, pad: string)
    requires r.tag != [] && TagShaped(r.tag)
    requires PidShaped(r.pid) && IsTrimmed(r.message) && '\n' !in r.message && AllIn(pad, Whitespace)
    ensures ParseHeader(r.timestamp, AfterTimestamp(r, pad)) == Some(r)
  {
    var s := AfterTimestamp(r, pad);
    var afterOpen := AfterOpen(r, pad);
    assert Span(s, Whitespace) == 1 && |s| >= 3 && s[1] == r.level.Letter() && s[2] == '/'
      && IndexOf(s[3..], '(') == |r.tag| && s[3..][..|r.tag|] == r.tag
      && s[3..][|r.tag| + 1..] == afterOpen by {
      ScanHeader(r.level, r.tag, afterOpen);
    }
    assert LevelOf(s[1]) == Some(r.level);
    ParseHeaderStep(r.timestamp, s, |r.tag|);
    assert Strip(r.tag) == r.tag;
    ParsePidFormat(r, pad);
  }

  /** Parsing a printed record gives back that record, whatever whitespace pads the pid. */
  lemma ParseFormat(r: LogRecord, pad: string)
    requires Printable(r) && AllIn(pad, Whitespace)
    ensures Parse(Format(r, pad)) == Some(r)
  {
    var header := AfterTimestamp(r, pad);
    var s := r.timestamp + header;
    assert Strip(Format(r, pad)) == s && !StartsWith(Format(r, pad), Separator) by {
      assert IsDate(r.timestamp);
      StripFormat(r, pad);
    }
    assert TimestampLength(s) == Some(|r.timestamp|) by {
      TimestampExtend(r.timestamp, header);
    }
    assert s[..|r.timestamp|] == r.timestamp && s[|r.timestamp|..] == header;
    assert ParseHeader(r.timestamp, header) == Some(r) by {
      ParseHeaderFormat(r, pad);
    }
  }

  /** The message is what follows the white space after `):`, up to the first line feed. */
  lemma MessagePieces(body: string, message: string) returns (gap: string, tail: string)
    requires message == UpToNewline(body[Span(body, Whitespace)..])
    ensures AllIn(gap, Whitespace) && (tail == [] || tail[0] == '\n')
    ensures body == gap + (message + tail)
  {
    var g := Span(body, Whitespace);
    var text := body[g..];
    var k := IndexOf(text, '\n');
    gap, tail := body[..g], text[k..];
    assert text == message + tail;
    assert body == gap + text;
  }

  /** The scans `ParsePid` makes: white space up to `p`, then digits up to `q`, where `):` follows. */
  lemma PidScan(timestamp: string, level: Level, tag: string, s: string) returns (p: nat, q: nat)
    requires ParsePid(timestamp, level, tag, s).Some?
    ensures p == Span(s, Whitespace) && p <= q && q + 2 <= |s| && s[q] == ')' && s[q + 1] == ':'
    ensures ParsePid(timestamp, level, tag, s)
         == Some(LogRecord(timestamp, level, tag, s[p..q], UpToNewline(s[q + 2..][Span(s[q + 2..], Whitespace)..])))
  {
    p := Span(s, Whitespace);
    q := p + Span(s[p..], Digit);
    assert s[q + 2..] == s[q..][2..];
  }

  /** Where `ParsePid` found the pid: after white space, and followed by `):`. */
  lemma PidPlace(timestamp: string, level: Level, tag: string, s: string, r: LogRecord) returns (p: nat, q: nat)
    requires ParsePid(timestamp, level, tag, s) == Some(r)
    ensures p <= q && q + 2 <= |s| && AllIn(s[..p], Whitespace) && r.pid == s[p..q]
    ensures s[q] == ')' && s[q + 1] == ':'
    ensures r.message == UpToNewline(s[q + 2..][Span(s[q + 2..], Whitespace)..])
  {
    p, q := PidScan(timestamp, level, tag, s);
    SpanPrefix(s, Whitespace);
  }

  /** A string cut around a `):` found at `q`, with a further cut at `p` before it. */
  lemma CutAround(s: string, p: nat, q: nat)
    requires p <= q && q + 2 <= |s| && s[q] == ')' && s[q + 1] == ':'
    ensures s == s[..p] + (s[p..q] + ("):" + s[q + 2..]))
  {
    assert s[q..q + 2] == "):";
    assert s[q..] == "):" + s[q + 2..];
    assert s[p..] == s[p..q] + s[q..];
  }

  /** What `ParsePid` read: white space, the pid, `):`, white space, the message, then nothing or a line feed. */
  lemma PidPieces(timestamp: string, level: Level, tag: string, s: string, r: LogRecord)
    returns (pad: string, gap: string, tail: string)
    requires ParsePid(timestamp, level, tag, s) == Some(r)
    ensures AllIn(pad, Whitespace) && AllIn(gap, Whitespace) && (tail == [] || tail[0] == '\n')
    ensures s == pad + (r.pid + ("):" + (gap + (r.message + tail))))
  {
    var p, q := PidPlace(timestamp, level, tag, s, r);
    pad := s[..p];
    gap, tail := MessagePieces(s[q + 2..], r.message);
    CutAround(s, p, q);
  }

  /** The scans `ParseHeader` makes: white space up to `g`, then the tag up to the `(` that is `open` further on. */
  lemma HeaderScan(timestamp: string, s: string) returns (g: nat, open: nat)
    requires ParseHeader(timestamp, s).Some?
    ensures g == Span(s, Whitespace) && 0 < g && g + 2 + open < |s| && 0 < open
    ensures LevelOf(s[g]).Some? && s[g + 1] == '/' && s[g + 2 + open] == '(' && '(' !in s[g + 2..][..open]
    ensures ParseHeader(timestamp, s)
         == ParsePid(timestamp, LevelOf(s[g]).value, Strip(s[g + 2..][..open]), s[g + 2..][open + 1..])
  {
    g := Span(s, Whitespace);
    open := IndexOf(s[g + 2..], '(');
  }

  /** Where `ParseHeader` found the level letter (after white space ending at `g`) and the `(` closing the tag. */
  lemma HeaderPlace(timestamp: string, s: string, r: LogRecord) returns (g: nat, open: nat)
    requires ParseHeader(timestamp, s) == Some(r)
    ensures 0 < g && g + 2 + open < |s| && AllIn(s[..g], Whitespace)
    ensures s[g] == r.level.Letter() && s[g + 1] == '/' && s[g + 2 + open] == '('
    ensures 0 < open && '(' !in s[g + 2..][..open] && r.tag == Strip(s[g + 2..][..open])
    ensures ParsePid(timestamp, r.level, r.tag, s[g + 2..][open + 1..]) == Some(r)
  {
    g, open := HeaderScan(timestamp, s);
    SpanPrefix(s, Whitespace);
  }

  /** A string cut at `g`, after the two characters there, and around the `(` that `open` further on. */
  lemma CutHeader(s: string, g: nat, open: nat)
    requires g + 2 + open < |s| && s[g + 1] == '/' && s[g + 2 + open] == '('
    ensures s == s[..g] + ([s[g]] + ("/" + (s[g + 2..][..open] + ("(" + s[g + 2..][open + 1..]))))
  {
    var rest := s[g + 2..];
    assert rest[open..] == "(" + rest[open + 1..];
    assert rest == rest[..open] + rest[open..];
    assert s[g..] == [s[g]] + ("/" + rest);
  }

  /** What `ParseHeader` read: white space, the level letter, `/`, the raw tag up to the first `(`, then `(`. */
  lemma HeaderPieces(timestamp: string, s: string, r: LogRecord) returns (gap: string, raw: string, rest: string)
    requires ParseHeader(timestamp, s) == Some(r)
    ensures gap != [] && AllIn(gap, Whitespace)
    ensures raw != [] && '(' !in raw && Strip(raw) == r.tag
    ensures s == gap + ([r.level.Letter()] + ("/" + (raw + ("(" + rest))))
    ensures ParsePid(timestamp, r.level, r.tag, rest) == Some(r)
  {
    var g, open := HeaderPlace(timestamp, s, r);
    gap, raw, rest := s[..g], s[g + 2..][..open], s[g + 2..][open + 1..];
    CutHeader(s, g, open);
  }

  /** How a parsed line is laid out, once stripped. */
  predicate Layout(s: string, r: LogRecord, gap: string, raw: string, pad: string, space: string, tail: string) {
    && gap != [] && AllIn(gap, Whitespace)
    && raw != [] && '(' !in raw && Strip(raw) == r.tag
    && AllIn(pad, Whitespace) && AllIn(space, Whitespace) && (tail == [] || tail[0] == '\n')
    && s == r.timestamp + (gap + ([r.level.Letter()] + ("/" + (raw + ("(" + (pad + (r.pid + ("):" + (space + (r.message + tail))))))))))
  }

  /** Every field of a parsed record comes from its place in the stripped line: the timestamp, white
      space, the level letter and `/`, the tag before stripping and `(`, white space and the pid, `):`,
      white space and the message, and after it nothing or a line feed. */
  lemma ParseLayout(line: string, r: LogRecord)
    requires Parse(line) == Some(r)
    ensures exists gap, raw, pad, space, tail :: Layout(Strip(line), r, gap, raw, pad, space, tail)
  {
    assert ParseStripped(Strip(line)) == Some(r);
    StrippedLayout(Strip(line), r);
  }

  lemma StrippedLayout(s: string, r: LogRecord)
    requires ParseStripped(s) == Some(r)
    ensures exists gap, raw, pad, space, tail :: Layout(s, r, gap, raw, pad, space, tail)
  {
    var n := StrippedScan(s);
    var gap, raw, rest := HeaderPieces(s[..n], s[n..], r);
    var pad, space, tail := PidPieces(s[..n], r.level, r.tag, rest, r);
    LayoutJoin(s, n, r, gap, raw, rest, pad, space, tail);
  }

  /** The layout of the header and of the text after `(`, joined to the timestamp. */
  lemma LayoutJoin(s: string, n: nat, r: LogRecord, gap: string, raw: string, rest: string,
                   pad: string, space: string, tail: string)
    requires n <= |s| && r.timestamp == s[..n]
    requires gap != [] && AllIn(gap, Whitespace) && raw != [] && '(' !in raw && Strip(raw) == r.tag
    requires s[n..] == gap + ([r.level.Letter()] + ("/" + (raw + ("(" + rest))))
    requires AllIn(pad, Whitespace) && AllIn(space, Whitespace) && (tail == [] || tail[0] == '\n')
    requires rest == pad + (r.pid + ("):" + (space + (r.message + tail))))
    ensures Layout(s, r, gap, raw, pad, space, tail)
  {
    assert s == s[..n] + s[n..];
  }

  /** The split `ParseStripped` makes: the timestamp, then the header after it. */
  lemma StrippedScan(s: string) returns (n: nat)
    requires ParseStripped(s).Some?
    ensures n <= |s| && TimestampLength(s) == Some(n) && ParseStripped(s) == ParseHeader(s[..n], s[n..])
  {
    n := TimestampLength(s).value;
  }

  /** A line of prose is not a log line. */
  lemma ProseRejected()
    ensures Parse("not a log line at all") == None
  {
    var line := "not a log line at all";
    assert line[0] == 'n' && line[|line| - 1] == 'l';
    assert !StartsWith(line, Separator) && Strip(line) == line;
    assert !IsDate(line);
  }
}
