/** The line-by-line reader of EnvLines against one scan over the unsplit text, in
    which a quoted value simply runs on to its closing quote. */
module EnvScan {
  import opened Texts
  import opened EnvLines

  const BREAK: set<char> := {'\n'}
  const QUOTES: set<char> := {'"', '\''}

  /** Where in the text the scan stands: where a line begins, after a value on the
      same line, or inside a quoted value. */
  datatype Place = LineStart | AfterValue | Inside(quote: char)

  /** What an assignment turns out to be: over with its line, or one that opens a
      quoted value, whose inside begins `at` characters on. */
  datatype Met = Passes(found: seq<Entry>) | Opens(at: nat, quote: char)

  predicate Special(key: string) {
    key == COMPOSE_FILE || key == PATH_SEPARATOR
  }

  /** Another key's value on `line`. */
  function MeetValue(line: string, value: string): (met: Met)
    requires |value| <= |line|
    ensures met.Opens? ==> 0 < met.at <= |line| && met.quote in QUOTES
  {
    var v := TrimLeft(value, BLANK);
    if v == "" || v[0] !in QUOTES then Passes([]) else Opens(|line| - |v| + 1, v[0])
  }

  /** A line that sets COMPOSE_FILE. */
  function MeetEntry(raw: string, line: string, value: string, i: nat): Result<Met>
    requires |value| <= |line| <= |raw|
  {
    match ParseComposeFileValue(line[..|line| - |value|], value)
    case Err(problem) => Err(problem)
    case Ok(entry) => Ok(Passes([entry.(index := i, suffix := entry.suffix + raw[|line|..])]))
  }

  /** The assignment that the rest of line `i`, up to its break, begins with. */
  function Meet(raw: string, i: nat, first: bool): (met: Result<Met>)
    ensures met.Ok? && met.value.Opens? ==>
      0 < met.value.at <= |TrimRight(raw, RETURN)| && met.value.quote in QUOTES
  {
    var line := TrimRight(raw, RETURN);
    SplitShortens(line);
    match SplitAssignment(line)
    case Nothing => Ok(Passes([]))
    case KeyOnly(key) =>
      if !Special(key) then Ok(Passes([]))
      else if !first then Err(SharesItsLine)
      else if key == PATH_SEPARATOR then Err(SetsPathSeparator)
      else Err(NamesNoValue)
    case KeyValue(key, value) =>
      if !Special(key) then Ok(MeetValue(line, value))
      else if !first then Err(SharesItsLine)
      else if key == PATH_SEPARATOR then Err(SetsPathSeparator)
      else MeetEntry(raw, line, value, i)
  }

  function Prepend(found: seq<Entry>, read: Result<Reading>): Result<Reading> {
    match read
    case Err(problem) => Err(problem)
    case Ok(Reading(left, more)) => Ok(Reading(left, found + more))
  }

  function Breaks(s: string): nat {
    if s == [] then 0 else (if s[0] == '\n' then 1 else 0) + Breaks(s[1..])
  }

  /** Scans `text` from its first character, which is on line `i`. */
  function Scan(text: string, i: nat, place: Place): Result<Reading>
    decreases |text|
  {
    match place
    case Inside(q) =>
      var end := ClosingQuote(text, q);
      if end < 0 then Ok(Reading(Within(q), [])) else Scan(text[end + 1..], i + Breaks(text[..end]), AfterValue)
    case _ =>
      var eol := IndexAny(text, BREAK);
      match Meet(text[..eol], i, place.LineStart?)
      case Err(problem) => Err(problem)
      case Ok(Opens(at, q)) => Scan(text[at..], i, Inside(q))
      case Ok(Passes(found)) =>
        if eol == |text| then Ok(Reading(Closed, found)) else Prepend(found, Scan(text[eol + 1..], i + 1, LineStart))
  }

  // ---- The reader, first line first -----------------------------------------

  function ReadFrom(lines: seq<string>, i: nat, left: Open): Result<Reading>
    decreases |lines|, 1
  {
    if lines == [] then Ok(Reading(left, [])) else ReadOn(ReadLine(lines[0], i, left), lines[1..], i + 1)
  }

  function ReadOn(read: Result<Reading>, lines: seq<string>, i: nat): Result<Reading>
    decreases |lines|, 2
  {
    match read
    case Err(problem) => Err(problem)
    case Ok(Reading(left, found)) => Prepend(found, ReadFrom(lines, i, left))
  }

  lemma PrependTwice(a: seq<Entry>, b: seq<Entry>, read: Result<Reading>)
    ensures Prepend(a, Prepend(b, read)) == Prepend(a + b, read) && Prepend([], read) == read
    ensures a + [] == a
  {
    if read.Ok? {
      assert a + b + read.value.found == a + (b + read.value.found);
      assert [] + read.value.found == read.value.found;
    }
  }

  lemma {:induction false} ReadFromLast(lines: seq<string>, last: string, i: nat, left: Open)
    ensures ReadFrom(lines + [last], i, left) == ReadNext(ReadFrom(lines, i, left), last, i + |lines|)
    decreases |lines|
  {
    hide ReadLine;
    assert (lines + [last])[1..] == if lines == [] then [] else lines[1..] + [last];
    if lines == [] {
      var read := ReadLine(last, i, left);
      if read.Ok? {
        PrependTwice(read.value.found, [], read);
        assert ReadFrom([], i + 1, read.value.left) == Ok(Reading(read.value.left, []));
        PrependTwice([], [], read);
      }
    } else {
      var read := ReadLine(lines[0], i, left);
      if read.Ok? {
        ReadFromLast(lines[1..], last, i + 1, read.value.left);
        var rest := ReadFrom(lines[1..], i + 1, read.value.left);
        if rest.Ok? {
          PrependTwice(read.value.found, rest.value.found, ReadLine(last, i + |lines|, rest.value.left));
        }
      }
    }
  }

  lemma {:induction false} ReadLinesIsReadFrom(lines: seq<string>)
    ensures ReadLines(lines) == ReadFrom(lines, 0, Closed)
    decreases |lines|
  {
    hide ReadLine;
    if lines != [] {
      var before := lines[..|lines| - 1];
      ReadLinesIsReadFrom(before);
      ReadFromLast(before, lines[|lines| - 1], 0, Closed);
      assert lines == before + [lines[|lines| - 1]];
    }
  }

  // ---- The text from some character on, and its first line ------------------

  function First(text: string): string {
    text[..IndexAny(text, BREAK)]
  }

  /** The lines after the first one. */
  function Later(text: string): seq<string> {
    var eol := IndexAny(text, BREAK);
    if eol == |text| then [] else Split(text[eol + 1..], '\n')
  }

  lemma FirstLine(text: string)
    ensures Split(text, '\n') == [First(text)] + Later(text)
  {
    hide Split, IndexAny;
    var eol := IndexAny(text, BREAK);
    assert forall i | 0 <= i < eol :: text[i] in BREAK <==> text[i] == '\n';
    if eol == |text| {
      assert text[..eol] == text;
      SplitOne(text, '\n');
    } else {
      assert text == text[..eol] + ['\n'] + text[eol + 1..];
      SplitFirst(text[..eol], '\n', text[eol + 1..]);
    }
  }

  /** Leaving out the first `at` characters of a line that is not cut that short. */
  lemma TrimLater(raw: string, at: nat)
    requires at <= |TrimRight(raw, RETURN)|
    ensures TrimRight(raw[at..], RETURN) == TrimRight(raw, RETURN)[at..]
  {
    hide Trailing;
    var n := Trailing(raw, RETURN);
    TrailingIs(raw[at..], RETURN, n - at);
    assert raw[at..][..n - at] == raw[..n][at..];
  }

  lemma LaterInText(text: string, at: nat)
    requires at <= |First(text)|
    ensures First(text[at..]) == First(text)[at..] && Later(text[at..]) == Later(text)
  {
    hide Split, IndexAny;
    var eol := IndexAny(text, BREAK);
    assert forall i | 0 <= i < eol - at :: text[at..][i] == text[at + i];
    IndexAnyIs(text[at..], BREAK, eol - at);
    assert text[at..][..eol - at] == text[..eol][at..];
    if eol < |text| {
      assert text[at..][eol - at + 1..] == text[eol + 1..];
    }
  }

  // ---- Where a quote closes across a line break -----------------------------

  lemma ClosingIs(s: string, q: char, at: int)
    requires -1 <= at < |s| && (at >= 0 ==> Closes(s, q, at))
    requires forall k | 0 <= k < |s| && (at < 0 || k < at) :: !Closes(s, q, k)
    ensures ClosingQuote(s, q) == at
  {
  }

  lemma {:induction false} EscapedInPrefix(s: string, t: string, i: nat)
    requires i <= |s|
    ensures Escaped(s + t, i) == Escaped(s, i)
    decreases i
  {
    if i > 0 {
      EscapedInPrefix(s, t, i - 1);
    }
  }

  /** An escape never reaches past a line break. */
  lemma {:induction false} EscapedAfterBreak(s: string, t: string, i: nat)
    requires i <= |t|
    ensures Escaped(s + ['\n'] + t, |s| + 1 + i) == Escaped(t, i)
    decreases i
  {
    if i > 0 {
      EscapedAfterBreak(s, t, i - 1);
    }
  }

  /** Returns at a line's end close nothing and escape nothing. */
  lemma ReturnsDoNotMatter(line: string, q: char)
    requires q != '\r'
    ensures ClosingQuote(TrimRight(line, RETURN), q) == ClosingQuote(line, q)
  {
    var kept, cut := TrimRight(line, RETURN), line[Trailing(line, RETURN)..];
    assert line == kept + cut;
    forall k | 0 <= k < |kept|
      ensures Closes(kept, q, k) == Closes(line, q, k)
    {
      EscapedInPrefix(kept, cut, k);
    }
    ClosingIs(line, q, ClosingQuote(kept, q));
  }

  lemma ClosesAcross(line: string, rest: string, q: char)
    requires q in QUOTES
    ensures var end, later := ClosingQuote(line, q), ClosingQuote(rest, q);
            ClosingQuote(line + ['\n'] + rest, q) ==
              if end >= 0 then end else if later < 0 then -1 else |line| + 1 + later
  {
    var text := line + ['\n'] + rest;
    forall k | 0 <= k < |line|
      ensures Closes(text, q, k) == Closes(line, q, k)
    {
      EscapedInPrefix(line, ['\n'] + rest, k);
      assert text == line + (['\n'] + rest);
    }
    forall k | 0 <= k < |rest|
      ensures Closes(text, q, |line| + 1 + k) == Closes(rest, q, k)
    {
      EscapedAfterBreak(line, rest, k);
    }
    var end, later := ClosingQuote(line, q), ClosingQuote(rest, q);
    assert forall k | |line| < k < |text| :: Closes(text, q, k) == Closes(rest, q, k - |line| - 1);
    ClosingIs(text, q, if end >= 0 then end else if later < 0 then -1 else |line| + 1 + later);
  }

  // ---- The scan reads what the reader reads ---------------------------------

  /** What the reader makes of the rest of a line, up to its break. */
  function ReadRest(raw: string, i: nat, place: Place): Result<Reading> {
    match place
    case LineStart => ReadLine(raw, i, Closed)
    case AfterValue => LeftBy(AfterQuote(TrimRight(raw, RETURN)))
    case Inside(q) => ReadLine(raw, i, Within(q))
  }

  /** And of the whole text. */
  function ReadText(text: string, i: nat, place: Place): Result<Reading> {
    ReadOn(ReadRest(First(text), i, place), Later(text), i + 1)
  }

  lemma ReadTextIs(text: string, i: nat)
    ensures ReadText(text, i, LineStart) == ReadFrom(Split(text, '\n'), i, Closed)
    ensures forall q :: ReadText(text, i, Inside(q)) == ReadFrom(Split(text, '\n'), i, Within(q))
  {
    hide ReadLine, Split, First, Later;
    FirstLine(text);
  }

  lemma ValueEndsItsLine(line: string)
    ensures var a := SplitAssignment(line);
            a.KeyValue? ==> |a.value| <= |line| && a.value == line[|line| - |a.value|..]
  {
    hide Leading, IndexAny;
    var body := line[KeyStart(line)..];
    var at := IndexAny(body, ASSIGNS);
    if at < |body| {
      assert body[at + 1..] == line[KeyStart(line) + at + 1..];
    }
  }

  /** The rest of a line inside a quote, its returns cut. */
  function ReadInside(line: string, q: char): Result<Open> {
    var end := ClosingQuote(line, q);
    if end < 0 then Ok(Within(q)) else AfterQuote(line[end + 1..])
  }

  lemma TrimmedEndsItsLine(line: string, value: string)
    requires |value| <= |line| && value == line[|line| - |value|..]
    ensures var v := TrimLeft(value, BLANK);
            |v| <= |line| && (v != "" ==> v[1..] == line[|line| - |v| + 1..])
  {
    hide Leading;
    var lead := Leading(value, BLANK);
    assert value[lead..] == line[|line| - |value| + lead..];
    if lead < |value| {
      assert value[lead..][1..] == line[|line| - |value| + lead + 1..];
    }
  }

  lemma SkipValueReadsInside(value: string)
    ensures var v := TrimLeft(value, BLANK);
            SkipValue(value) == if v == "" || v[0] !in QUOTES then Ok(Closed) else ReadInside(v[1..], v[0])
  {
    hide TrimLeft, ClosingFrom, AfterQuote;
    var v := TrimLeft(value, BLANK);
    if v != "" && v[0] in QUOTES {
      var end := ClosingQuote(v[1..], v[0]);
      if end >= 0 {
        assert v[1..][end + 1..] == v[end + 2..];
      }
    }
  }

  lemma MeetValueIsSkipValue(line: string, value: string)
    requires |value| <= |line| && value == line[|line| - |value|..]
    ensures match MeetValue(line, value)
      case Passes(found) => found == [] && SkipValue(value) == Ok(Closed)
      case Opens(at, q) => SkipValue(value) == ReadInside(line[at..], q)
  {
    hide TrimLeft, SkipValue, ReadInside;
    TrimmedEndsItsLine(line, value);
    SkipValueReadsInside(value);
  }

  lemma MeetIsReadRest(raw: string, i: nat, place: Place)
    requires !place.Inside?
    ensures match Meet(raw, i, place.LineStart?)
      case Err(problem) => ReadRest(raw, i, place) == Err(problem)
      case Ok(Passes(found)) => ReadRest(raw, i, place) == Ok(Reading(Closed, found))
      case Ok(Opens(at, q)) => ReadRest(raw, i, place) == ReadRest(raw[at..], i, Inside(q))
  {
    hide Trailing, ParseComposeFileValue, SplitAssignment, ClosingQuote, SkipValue, MeetValue;
    var line := TrimRight(raw, RETURN);
    SplitShortens(line);
    ValueEndsItsLine(line);
    if SplitAssignment(line).KeyValue? {
      var value := SplitAssignment(line).value;
      MeetValueIsSkipValue(line, value);
      var met := MeetValue(line, value);
      if met.Opens? {
        TrimLater(raw, met.at);
      }
    }
  }

  /** A quote that closes on its line closes there in the text too. */
  lemma ClosesOnItsLine(text: string, q: char)
    requires q in QUOTES && ClosingQuote(TrimRight(First(text), RETURN), q) >= 0
    ensures var end := ClosingQuote(TrimRight(First(text), RETURN), q);
            ClosingQuote(text, q) == end && end < |TrimRight(First(text), RETURN)| && Breaks(text[..end]) == 0
  {
    hide ClosingFrom, IndexAny, Trailing;
    var raw, eol := First(text), IndexAny(text, BREAK);
    ReturnsDoNotMatter(raw, q);
    if eol < |text| {
      ClosesAcross(raw, text[eol + 1..], q);
      assert text == raw + ['\n'] + text[eol + 1..];
    } else {
      assert text == raw;
    }
    NoBreaks(text[..ClosingQuote(text, q)]);
  }

  lemma {:induction false} NoBreaks(s: string)
    requires '\n' !in s
    ensures Breaks(s) == 0
    decreases |s|
  {
    if s != [] {
      assert s[0] in s && forall c | c in s[1..] :: c in s;
      NoBreaks(s[1..]);
    }
  }

  lemma {:induction false} BreaksAcross(line: string, rest: string)
    requires '\n' !in line
    ensures Breaks(line + ['\n'] + rest) == 1 + Breaks(rest)
    decreases |line|
  {
    var s := line + ['\n'] + rest;
    if line == [] {
      assert s[1..] == rest;
    } else {
      assert line[0] in line && forall c | c in line[1..] :: c in line;
      assert s[1..] == line[1..] + ['\n'] + rest;
      BreaksAcross(line[1..], rest);
    }
  }

  /** A quote that does not close on its line closes where it does in the text
      after the line's break, if it does. */
  lemma ClosesAfterBreak(line: string, rest: string, q: char)
    requires q in QUOTES && ClosingQuote(line, q) < 0 && '\n' !in line
    ensures var text, later := line + ['\n'] + rest, ClosingQuote(rest, q);
            if later < 0 then ClosingQuote(text, q) < 0
            else
              && ClosingQuote(text, q) == |line| + 1 + later
              && text[|line| + 1 + later + 1..] == rest[later + 1..]
              && Breaks(text[..|line| + 1 + later]) == 1 + Breaks(rest[..later])
  {
    hide ClosingFrom, Breaks;
    ClosesAcross(line, rest, q);
    var text, later := line + ['\n'] + rest, ClosingQuote(rest, q);
    if later >= 0 {
      assert text[..|line| + 1 + later] == line + ['\n'] + rest[..later];
      BreaksAcross(line, rest[..later]);
    }
  }

  /** So it is scanned for on the next line. */
  lemma ClosesLater(text: string, i: nat, q: char)
    requires q in QUOTES && ClosingQuote(TrimRight(First(text), RETURN), q) < 0
    ensures var eol := IndexAny(text, BREAK);
            Scan(text, i, Inside(q)) ==
              if eol == |text| then Ok(Reading(Within(q), [])) else Scan(text[eol + 1..], i + 1, Inside(q))
  {
    hide ClosingFrom, IndexAny, TrimRight, Meet, Breaks;
    var line, eol := First(text), IndexAny(text, BREAK);
    ReturnsDoNotMatter(line, q);
    if eol == |text| {
      assert text == line;
    } else {
      assert text == line + ['\n'] + text[eol + 1..];
      ClosesAfterBreak(line, text[eol + 1..], q);
    }
  }

  /** Inside a quote, the rest of a line either leaves it open or closes it. */
  lemma ReadRestInside(raw: string, i: nat, q: char)
    ensures var end := ClosingQuote(TrimRight(raw, RETURN), q);
            ReadRest(raw, i, Inside(q)) ==
              if end < 0 then Ok(Reading(Within(q), [])) else ReadRest(raw[end + 1..], i, AfterValue)
  {
    hide ClosingFrom, Trailing, AfterQuote;
    var end := ClosingQuote(TrimRight(raw, RETURN), q);
    if end >= 0 {
      TrimLater(raw, end + 1);
    }
  }

  lemma {:induction false} ScanInside(text: string, i: nat, q: char)
    requires q in QUOTES
    ensures Scan(text, i, Inside(q)) == ReadText(text, i, Inside(q))
    decreases |text|, 0
  {
    hide ClosingFrom, IndexAny, Trailing, Meet, ReadRest, ReadOn, ReadFrom, Later, Breaks, Split;
    var line, eol := TrimRight(First(text), RETURN), IndexAny(text, BREAK);
    var end := ClosingQuote(line, q);
    ReadRestInside(First(text), i, q);
    if end >= 0 {
      ClosesOnItsLine(text, q);
      LaterInText(text, end + 1);
      ScanAssignment(text[end + 1..], i, AfterValue);
    } else {
      ClosesLater(text, i, q);
      ReadsOn(text, i, Within(q), []);
      if eol < |text| {
        ScanInside(text[eol + 1..], i + 1, q);
        ReadTextIs(text[eol + 1..], i + 1);
        PrependTwice([], [], Scan(text[eol + 1..], i + 1, Inside(q)));
      }
    }
  }

  /** Once the first line is read, the reader goes on with the text after it. */
  lemma ReadsOn(text: string, i: nat, left: Open, found: seq<Entry>)
    ensures var eol := IndexAny(text, BREAK);
            ReadOn(Ok(Reading(left, found)), Later(text), i + 1) ==
              if eol == |text| then Ok(Reading(left, found))
              else Prepend(found, ReadFrom(Split(text[eol + 1..], '\n'), i + 1, left))
  {
    hide IndexAny, Split, ReadLine;
    PrependTwice(found, [], Ok(Reading(left, [])));
    assert ReadFrom([], i + 1, left) == Ok(Reading(left, []));
  }

  lemma {:induction false} ScanAssignment(text: string, i: nat, place: Place)
    requires !place.Inside?
    ensures Scan(text, i, place) == ReadText(text, i, place)
    decreases |text|, 1
  {
    hide ClosingQuote, IndexAny, Trailing, Meet, AfterQuote, Later, ReadRest, ReadFrom;
    var raw, eol := First(text), IndexAny(text, BREAK);
    MeetIsReadRest(raw, i, place);
    var met := Meet(raw, i, place.LineStart?);
    if met.Ok? && met.value.Opens? {
      LaterInText(text, met.value.at);
      ScanInside(text[met.value.at..], i, met.value.quote);
    } else if met.Ok? {
      ReadsOn(text, i, Closed, met.value.found);
      if eol < |text| {
        ScanAssignment(text[eol + 1..], i + 1, LineStart);
        ReadTextIs(text[eol + 1..], i + 1);
      }
    }
  }

  /** The line-by-line reader and the scan of the whole text agree: about the
      quote left open, the entries found and their lines, and the error. */
  lemma ReaderAgreesWithScan(text: string)
    ensures ReadLines(Split(text, '\n')) == Scan(text, 0, LineStart)
  {
    ScanAssignment(text, 0, LineStart);
    ReadTextIs(text, 0);
    ReadLinesIsReadFrom(Split(text, '\n'));
  }

  /** And so they do at the end of every line on the way. */
  lemma AgreesAtEveryLineEnd(text: string, end: nat)
    requires end <= |text| && (end == |text| || text[end] == '\n')
    ensures Split(text[..end], '\n') <= Split(text, '\n')
    ensures ReadLines(Split(text, '\n')[..|Split(text[..end], '\n')|]) == Scan(text[..end], 0, LineStart)
  {
    hide Scan, ReadLines, Split;
    ReaderAgreesWithScan(text[..end]);
    if end < |text| {
      SplitAtBreak(text[..end], text[end + 1..]);
      assert text == text[..end] + ['\n'] + text[end + 1..];
    } else {
      assert text[..end] == text;
      assert Split(text, '\n')[..|Split(text, '\n')|] == Split(text, '\n');
    }
  }

  lemma {:induction false} SplitAtBreak(s: string, t: string)
    ensures Split(s + ['\n'] + t, '\n') == Split(s, '\n') + Split(t, '\n')
    decreases |s|
  {
    var whole := s + ['\n'] + t;
    if s == [] {
      assert whole[1..] == t;
    } else {
      assert whole[1..] == s[1..] + ['\n'] + t;
      SplitAtBreak(s[1..], t);
    }
  }
}
