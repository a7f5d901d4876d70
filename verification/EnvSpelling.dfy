/** The spellings of a COMPOSE_FILE line: each one the reader promises to accept is
    read for what it lists, and nothing is ever read that would need interpreting. */
module EnvSpelling {
  import opened Texts
  import opened EnvLines
  import opened EnvEntries
  import opened EnvRelist

  predicate Blank(s: string) {
    forall i | 0 <= i < |s| :: s[i] in {' ', '\t'}
  }

  /** How a line leads up to its value: indented or not, exported or not, spaced or
      not around a `=` or a `:`. */
  datatype Spelling = Spelling(indent: string, exported: bool, gap: string, pad: string, separator: char) {
    predicate Valid() {
      Blank(indent) && Blank(gap) && (exported ==> gap != "") && Blank(pad) && separator in {'=', ':'}
    }

    function Export(): string {
      if exported then "export" + gap else ""
    }

    function Head(): string {
      indent + Export() + COMPOSE_FILE + pad + [separator]
    }
  }

  lemma HeadShape(s: Spelling, value: string)
    requires s.Valid()
    ensures
      var line := s.Head() + value;
      && Leading(line, BLANK) == |s.indent|
      && line[|s.indent|..] == s.Export() + (COMPOSE_FILE + s.pad + [s.separator] + value)
  {
    var rest := s.Export() + (COMPOSE_FILE + s.pad + [s.separator] + value);
    var line := s.Head() + value;
    assert line == s.indent + rest;
    assert rest[0] == if s.exported then 'e' else 'C';
    LeadingIs(line, BLANK, |s.indent|);
  }

  lemma KeyStartsAfterExport(s: Spelling, value: string)
    requires s.Valid()
    ensures
      var line := s.Head() + value;
      && KeyStart(line) == |s.indent| + |s.Export()|
      && line[KeyStart(line)..] == COMPOSE_FILE + s.pad + [s.separator] + value
  {
    HeadShape(s, value);
    var line, body := s.Head() + value, COMPOSE_FILE + s.pad + [s.separator] + value;
    var rest := line[|s.indent|..];
    assert body[0] == 'C';
    if s.exported {
      assert rest == "export" + (s.gap + body);
      assert rest[..6] == "export" && rest[6] == s.gap[0] && rest[6..] == s.gap + body;
      LeadingIs(s.gap + body, BLANK, |s.gap|);
      assert line[|s.indent| + 6..] == rest[6..];
      assert line[|s.indent| + 6 + |s.gap|..] == (s.gap + body)[|s.gap|..];
    } else {
      assert rest == body;
      assert rest[0] != "export"[0];
    }
  }

  lemma TrimPadded(key: string, pad: string)
    requires key != "" && key[0] !in SPACE && key[|key| - 1] !in SPACE && Blank(pad)
    ensures Trim(key + pad, SPACE) == key
  {
    var s := key + pad;
    assert forall i | |key| <= i < |s| :: s[i] == pad[i - |key|];
    TrailingIs(s, SPACE, |key|);
    assert s[..|key|] == key;
    LeadingIs(key, SPACE, 0);
  }

  lemma KeyIsPlain()
    ensures |COMPOSE_FILE| == 12 && COMPOSE_FILE[0] == 'C' && COMPOSE_FILE[11] == 'E'
    ensures forall i | 0 <= i < 12 :: COMPOSE_FILE[i] !in ASSIGNS
  {
  }

  lemma SeparatorIsFound(s: Spelling, value: string)
    requires s.Valid()
    ensures
      var body, at := COMPOSE_FILE + s.pad + [s.separator] + value, 12 + |s.pad|;
      at < |body| && IndexAny(body, ASSIGNS) == at && body[..at] == COMPOSE_FILE + s.pad && body[at + 1..] == value
  {
    KeyIsPlain();
    var body, at := COMPOSE_FILE + s.pad + [s.separator] + value, 12 + |s.pad|;
    assert body == COMPOSE_FILE + (s.pad + [s.separator] + value);
    assert body[at] == s.separator && forall i | 12 <= i < at :: body[i] == s.pad[i - 12];
    IndexAnyIs(body, ASSIGNS, at);
  }

  lemma KeyIsTrimmed(pad: string)
    requires Blank(pad)
    ensures Trim(COMPOSE_FILE + pad, SPACE) == COMPOSE_FILE
  {
    KeyIsPlain();
    TrimPadded(COMPOSE_FILE, pad);
  }

  lemma ExportOrKey(s: Spelling, value: string)
    requires s.Valid()
    ensures
      var rest := s.Export() + (COMPOSE_FILE + s.pad + [s.separator] + value);
      rest != "" && rest[0] != '#'
  {
    KeyIsPlain();
  }

  /** However the line leads up to it, the value is what follows the separator. */
  lemma SpelledKeyIsRead(s: Spelling, value: string)
    requires s.Valid()
    ensures SplitAssignment(s.Head() + value) == KeyValue(COMPOSE_FILE, value)
  {
    hide KeyStart, Trim, Spelling.Head, Leading, IndexAny, Spelling.Valid, Spelling.Export;
    KeyStartsAfterExport(s, value);
    HeadShape(s, value);
    ExportOrKey(s, value);
    SeparatorIsFound(s, value);
    KeyIsTrimmed(s.pad) by { PadIsBlank(s); }
  }

  lemma PadIsBlank(s: Spelling)
    requires s.Valid()
    ensures Blank(s.pad) && Blank(s.indent) && s.Head() != "" && s.Head()[|s.Head()| - 1] == s.separator != '\r'
  {
  }

  /** The value: blanks, the list in quotes or bare, and what may follow it. */
  predicate Follows(quote: string, list: string, suffix: string) {
    if quote == "" then Solid(list) && list[0] !in BLANK && Tail(suffix) && !HasAny(list, UNSUPPORTED)
    else |quote| == 1 && Quotable(list, quote[0]) && Comment(suffix)
  }

  /** Every such line is read as the list it spells, and taken apart where it was put
      together: the reader accepts every spelling it promises to. */
  lemma EverySpellingIsRead(s: Spelling, lead: string, quote: string, list: string, suffix: string, eol: string, i: nat)
    requires s.Valid() && Blank(lead) && Follows(quote, list, suffix) && eol in {"", "\r"}
    requires EndsPlainly(quote, list, suffix)
    ensures ReadLine(s.Head() + (lead + quote + list + quote + suffix) + eol, i, Closed)
         == Ok(Reading(Closed, [Entry(i, s.Head() + lead, quote, Split(list, ':'), suffix + eol)]))
  {
    hide ParseComposeFileValue, SplitAssignment, SkipValue, Split, HasAny, Solid, Tail, Quotable, Comment, Spelling.Head, Spelling.Valid;
    var value := lead + quote + list + quote + suffix;
    var head, line := s.Head(), s.Head() + value;
    SpelledKeyIsRead(s, value);
    PadIsBlank(s);
    ValueEndsPlainly(lead, quote, list, suffix);
    assert TrimRight(line + eol, RETURN) == line by {
      assert line[|line| - 1] == value[|value| - 1];
      TrailingIs(line + eol, RETURN, |line|);
      assert (line + eol)[..|line|] == line;
    }
    assert line[..|line| - |value|] == head && (line + eol)[|line|..] == eol;
    if quote == "" {
      assert value == lead + list + suffix;
      UnquotedIsRead(head, lead, list, suffix);
    } else {
      assert quote == [quote[0]];
      QuotedIsRead(head, lead, quote[0], list, suffix);
    }
  }

  /** The line does not end in a return of its own. */
  predicate EndsPlainly(quote: string, list: string, suffix: string) {
    var end := list + quote + suffix;
    end != "" && end[|end| - 1] != '\r'
  }

  lemma ValueEndsPlainly(lead: string, quote: string, list: string, suffix: string)
    requires EndsPlainly(quote, list, suffix)
    ensures var value := lead + quote + list + quote + suffix; value != "" && value[|value| - 1] != '\r'
  {
    var end := list + quote + suffix;
    assert lead + quote + list + quote + suffix == lead + quote + end;
  }

  // ---- What is never read ---------------------------------------------------

  /** What is read is meant literally: no escape, no interpolation, no quote that
      opens or closes anything. */
  lemma ReadLiterally(head: string, value: string, e: Entry, c: char)
    requires ParseComposeFileValue(head, value) == Ok(e) && c in Join(e.files, ':')
    ensures c != '\\'
    ensures c == '$' ==> e.quote == "'"
    ensures c in {'"', '\''} ==> e.quote in {"\"", "'"} && e.quote != [c]
  {
    hide ParseComposeFileValue, Split, Join, Comment, UnquotedEnd;
    if e.quote != "" {
      var lead, q, list := QuotedWasRead(head, value, e);
      JoinSplit(list, ':');
    } else {
      UnquotedShape(head, value, e);
      var v := value[Leading(value, BLANK)..];
      JoinSplit(v[..UnquotedEnd(v)], ':');
    }
  }

  /** A quoted value that does not close on its line is refused. */
  lemma UnclosedIsRefused(head: string, lead: string, q: char, rest: string)
    requires Blank(lead) && q in {'"', '\''} && q !in rest
    ensures ParseComposeFileValue(head, lead + [q] + rest) == Err(DoesNotClose)
  {
    hide UnquotedEnd, Split, Leading, HasAny;
    var value := lead + [q] + rest;
    LeadingIs(value, BLANK, |lead|);
    assert value[|lead|..] == [q] + rest;
    assert ([q] + rest)[1..] == rest;
    IndexAnyIs(rest, {q}, |rest|);
  }

  /** So is anything but a comment after the closing quote. */
  lemma TextAfterQuoteIsRefused(head: string, lead: string, q: char, list: string, suffix: string)
    requires Blank(lead) && q in {'"', '\''} && q !in list && !Comment(suffix)
    ensures ParseComposeFileValue(head, lead + [q] + list + [q] + suffix) == Err(TextAfterQuote)
  {
    hide UnquotedEnd, Split, Leading, HasAny, TrimLeft;
    var value := lead + [q] + list + [q] + suffix;
    LeadingIs(value, BLANK, |lead|);
    var v := value[|lead|..];
    assert v == [q] + list + [q] + suffix;
    assert v[1..][|list|] == q && forall i | 0 <= i < |list| :: v[1..][i] == list[i] && list[i] in list;
    IndexAnyIs(v[1..], {q}, |list|);
    assert v[2 + |list|..] == suffix;
  }
}
