/** Reading an .env file line by line, as docker compose reads it: where quoted
    values run, and which lines set COMPOSE_FILE. */
module EnvLines {
  import opened Texts

  const COMPOSE_FILE := "COMPOSE_FILE"
  const PATH_SEPARATOR := "COMPOSE_PATH_SEPARATOR"

  const BLANK: set<char> := {' ', '\t'}
  const RETURN: set<char> := {'\r'}
  const ASSIGNS: set<char> := {'=', ':'}
  const UNSUPPORTED: set<char> := {'\\', '$', '"', '\''}

  /** What the standard library trims as white space. */
  const SPACE: set<char> := {'\t', '\n', '\U{b}', '\U{c}', '\r', ' ', '\U{85}', '\U{a0}', '\U{1680}', '\U{2000}', '\U{2001}',
                             '\U{2002}', '\U{2003}', '\U{2004}', '\U{2005}', '\U{2006}', '\U{2007}', '\U{2008}', '\U{2009}',
                             '\U{200a}', '\U{2028}', '\U{2029}', '\U{202f}', '\U{205f}', '\U{3000}'}

  datatype Problem =
    | SetsPathSeparator
    | NamesNoValue
    | SharesItsLine
    | DoesNotClose
    | TextAfterQuote
    | NeedsInterpretation
    | SetTwice
    | ListsNoFiles
    | ListsAnEmptyName
    | ListsASpacedName

  datatype Result<T> = Ok(value: T) | Err(problem: Problem)

  /** A line that sets COMPOSE_FILE, taken apart so that putting it together
      again with its own files gives back its characters. */
  datatype Entry = Entry(index: nat, prefix: string, quote: string, files: seq<string>, suffix: string) {
    function Render(files: seq<string>): string {
      prefix + quote + Join(files, ':') + quote + suffix
    }
  }

  /** The quote a value on an earlier line left open. */
  datatype Open = Closed | Within(quote: char)

  // ---- Quotes ---------------------------------------------------------------

  /** The character at `i` is taken literally because of a backslash before it. */
  predicate Escaped(s: string, i: nat)
    requires i <= |s|
  {
    i > 0 && s[i - 1] == '\\' && !Escaped(s, i - 1)
  }

  predicate Closes(s: string, q: char, i: nat)
    requires i < |s|
  {
    s[i] == q && !Escaped(s, i)
  }

  function ClosingFrom(s: string, q: char, i: nat): (at: int)
    requires i <= |s|
    ensures at >= -1 && (at == -1 ==> forall k | i <= k < |s| :: !Closes(s, q, k))
    ensures at >= 0 ==> i <= at < |s| && Closes(s, q, at) && forall k | i <= k < at :: !Closes(s, q, k)
    decreases |s| - i
  {
    if i == |s| then -1 else if Closes(s, q, i) then i else ClosingFrom(s, q, i + 1)
  }

  /** Where quote `q` closes in `s`: the first one no backslash escapes, or -1. */
  function ClosingQuote(s: string, q: char): int {
    ClosingFrom(s, q, 0)
  }

  /** The source's scan, which carries the escape along instead of looking back. */
  method ScanClosingQuote(s: string, q: char) returns (at: int)
    requires q != '\\'
    ensures at == ClosingQuote(s, q)
  {
    var escaped := false;
    for i := 0 to |s|
      invariant escaped == Escaped(s, i) && ClosingQuote(s, q) == ClosingFrom(s, q, i)
    {
      if escaped {
        escaped := false;
      } else if s[i] == '\\' {
        escaped := true;
      } else if s[i] == q {
        return i;
      }
    }
    at := -1;
  }

  // ---- One assignment -------------------------------------------------------

  /** What one dotenv line is: nothing, a bare key, or a key and the raw text
      after its separator. */
  datatype Assignment = Nothing | KeyOnly(key: string) | KeyValue(key: string, value: string)

  predicate HasExport(rest: string) {
    |rest| > 6 && rest[..6] == "export" && rest[6] in BLANK
  }

  /** Where the key starts once leading blanks and an export are passed over. */
  function KeyStart(line: string): (n: nat)
    ensures n <= |line|
  {
    var lead := Leading(line, BLANK);
    if HasExport(line[lead..]) then lead + 6 + Leading(line[lead + 6..], BLANK) else lead
  }

  function SplitAssignment(line: string): Assignment {
    var rest := TrimLeft(line, BLANK);
    if rest == "" || rest[0] == '#' then Nothing
    else
      var body := line[KeyStart(line)..];
      var at := IndexAny(body, ASSIGNS);
      if at == |body| then KeyOnly(Trim(body, SPACE)) else KeyValue(Trim(body[..at], SPACE), body[at + 1..])
  }

  /** Follows another key's value: the quote it leaves open at the end of its
      line, if any. */
  function SkipValue(value: string): Result<Open>
    decreases |value|
  {
    var v := TrimLeft(value, BLANK);
    if v == "" || v[0] !in {'"', '\''} then Ok(Closed)
    else
      var end := ClosingQuote(v[1..], v[0]);
      if end < 0 then Ok(Within(v[0])) else AfterQuote(v[end + 2..])
  }

  /** What follows a closing quote on its line is read as another assignment. */
  function AfterQuote(rest: string): Result<Open>
    decreases |rest|
  {
    match SplitAssignment(rest)
    case Nothing => Ok(Closed)
    case KeyOnly(key) => if key == COMPOSE_FILE || key == PATH_SEPARATOR then Err(SharesItsLine) else Ok(Closed)
    case KeyValue(key, value) =>
      if key == COMPOSE_FILE || key == PATH_SEPARATOR then Err(SharesItsLine)
      else SplitShortens(rest); SkipValue(value)
  }

  lemma SplitShortens(line: string)
    ensures SplitAssignment(line).KeyValue? ==> |SplitAssignment(line).value| < |line|
  {
  }

  // ---- A COMPOSE_FILE value -------------------------------------------------

  /** Where " #" first stands in `v`; |v| when it does not. */
  function SpaceHash(v: string): (n: nat)
    ensures n <= |v| && (forall i | 0 <= i < n && i + 1 < |v| :: !(v[i] == ' ' && v[i + 1] == '#'))
    ensures n < |v| ==> n + 1 < |v| && v[n] == ' ' && v[n + 1] == '#'
  {
    if |v| < 2 then |v| else if v[0] == ' ' && v[1] == '#' then 0
    else
      1 + SpaceHash(v[1..])
  }

  /** Where an unquoted value's comment begins; |v| when it has none. */
  function CommentStart(v: string): (n: nat)
    ensures n <= |v|
  {
    if v != "" && v[0] == '#' then 0 else if SpaceHash(v) < |v| then SpaceHash(v) + 1 else |v|
  }

  function UnquotedEnd(v: string): (n: nat)
    ensures n <= |v|
  {
    Trailing(v[..CommentStart(v)], BLANK)
  }

  predicate HasAny(s: string, bad: set<char>) {
    exists c | c in s :: c in bad
  }

  /** Parses what follows `head` on a COMPOSE_FILE line. */
  function ParseComposeFileValue(head: string, value: string): Result<Entry> {
    var lead := Leading(value, BLANK);
    var v := value[lead..];
    var prefix := head + value[..lead];
    if v != "" && v[0] in {'"', '\''} then
      var end := IndexAny(v[1..], {v[0]});
      if end == |v| - 1 then Err(DoesNotClose)
      else
        var list, suffix := v[1..1 + end], v[2 + end..];
        var rest := TrimLeft(suffix, BLANK);
        if rest != "" && rest[0] != '#' then Err(TextAfterQuote)
        else if '\\' in list || (v[0] == '"' && '$' in list) then Err(NeedsInterpretation)
        else Ok(Entry(0, prefix, [v[0]], Split(list, ':'), suffix))
    else
      var list := v[..UnquotedEnd(v)];
      if HasAny(list, UNSUPPORTED) then Err(NeedsInterpretation)
      else Ok(Entry(0, prefix, "", Split(list, ':'), v[|list|..]))
  }

  // ---- Line by line ---------------------------------------------------------

  /** What has been read so far. */
  datatype Reading = Reading(left: Open, found: seq<Entry>)

  /** Reads line number `i`. */
  function ReadLine(raw: string, i: nat, left: Open): Result<Reading> {
    var line := TrimRight(raw, RETURN);
    match left
    case Within(q) =>
      var end := ClosingQuote(line, q);
      if end < 0 then Ok(Reading(left, [])) else LeftBy(AfterQuote(line[end + 1..]))
    case Closed =>
      match SplitAssignment(line)
      case Nothing => Ok(Reading(Closed, []))
      case KeyOnly(key) =>
        if key == PATH_SEPARATOR then Err(SetsPathSeparator)
        else if key == COMPOSE_FILE then Err(NamesNoValue)
        else Ok(Reading(Closed, []))
      case KeyValue(key, value) =>
        if key == PATH_SEPARATOR then Err(SetsPathSeparator)
        else if key != COMPOSE_FILE then LeftBy(SkipValue(value))
        else
          SplitShortens(line);
          match ParseComposeFileValue(line[..|line| - |value|], value)
          case Err(problem) => Err(problem)
          case Ok(entry) => Ok(Reading(Closed, [entry.(index := i, suffix := entry.suffix + raw[|line|..])]))
  }

  function LeftBy(read: Result<Open>): Result<Reading> {
    match read
    case Err(problem) => Err(problem)
    case Ok(left) => Ok(Reading(left, []))
  }

  function ReadNext(before: Result<Reading>, raw: string, i: nat): Result<Reading> {
    match before
    case Err(problem) => Err(problem)
    case Ok(Reading(left, found)) =>
      match ReadLine(raw, i, left)
      case Err(problem) => Err(problem)
      case Ok(Reading(next, more)) => Ok(Reading(next, found + more))
  }

  /** All lines, in order. */
  function ReadLines(lines: seq<string>): Result<Reading> {
    if lines == [] then Ok(Reading(Closed, []))
    else ReadNext(ReadLines(lines[..|lines| - 1]), lines[|lines| - 1], |lines| - 1)
  }

  /** Every line that sets COMPOSE_FILE, in order. */
  method FindComposeFileEntries(lines: seq<string>) returns (found: Result<seq<Entry>>)
    ensures found == match ReadLines(lines) case Ok(all) => Ok(all.found) case Err(problem) => Err(problem)
  {
    var entries: seq<Entry>, left := [], Closed;
    for i := 0 to |lines|
      invariant ReadLines(lines[..i]) == Ok(Reading(left, entries))
    {
      assert lines[..i + 1][..i] == lines[..i];
      var read := ReadLine(lines[i], i, left);
      if read.Err? {
        ErrorsStick(lines, i + 1);
        return Err(read.problem);
      }
      left, entries := read.value.left, entries + read.value.found;
    }
    assert lines[..|lines|] == lines;
    found := Ok(entries);
  }

  lemma {:induction false} ErrorsStick(lines: seq<string>, i: nat)
    requires i <= |lines| && ReadLines(lines[..i]).Err?
    ensures ReadLines(lines) == ReadLines(lines[..i])
    decreases |lines|
  {
    if i == |lines| {
      assert lines[..i] == lines;
    } else {
      var before := lines[..|lines| - 1];
      assert before[..i] == lines[..i];
      ErrorsStick(before, i);
    }
  }

  /** A quote left open stays open up to the line it closes on, and no line in
      between sets anything. */
  lemma {:induction false} OpenRunsOn(lines: seq<string>, from: nat, end: nat, q: char, found: seq<Entry>)
    requires from <= end <= |lines| && ReadLines(lines[..from]) == Ok(Reading(Within(q), found))
    requires forall i | from <= i < end :: ClosingQuote(TrimRight(lines[i], RETURN), q) < 0
    ensures ReadLines(lines[..end]) == Ok(Reading(Within(q), found))
    decreases end
  {
    hide ClosingQuote, TrimRight, SplitAssignment, AfterQuote, SkipValue, ParseComposeFileValue;
    if from < end {
      OpenRunsOn(lines, from, end - 1, q, found);
      assert lines[..end][..end - 1] == lines[..end - 1];
      assert ReadLine(lines[end - 1], end - 1, Within(q)) == Ok(Reading(Within(q), []));
      assert found + [] == found;
    }
  }
}
