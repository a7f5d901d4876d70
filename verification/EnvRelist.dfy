/** One COMPOSE_FILE line with another list in it: what it is then read as. */
module EnvRelist {
  import opened Texts
  import opened EnvLines
  import opened EnvEntries

  /** The entry's line with `list` in place of its own. */
  function Relisted(e: Entry, list: string): string {
    e.prefix + e.quote + list + e.quote + e.suffix
  }

  /** Nothing is cut from either end of the list when it stands unquoted. */
  predicate Ends(list: string) {
    list != "" && list[0] !in BLANK && list[0] != '#' && list[|list| - 1] !in BLANK
  }

  predicate NoComment(list: string) {
    forall i | 0 <= i < |list| - 1 :: !(list[i] == ' ' && list[i + 1] == '#')
  }

  /** How much of `list` + `suffix` comes before the comment the suffix holds. */
  function BeforeComment(list: string, suffix: string): (n: nat)
    ensures n <= |list + suffix|
  {
    |list| + if SpaceHash(suffix) < |suffix| then SpaceHash(suffix) + 1 else |suffix|
  }

  lemma BeforeCommentIsBlank(list: string, suffix: string, i: nat)
    requires Tail(suffix) && i < BeforeComment(list, suffix)
    ensures (list + suffix)[i] in list || (list + suffix)[i] in BLANK
  {
  }

  /** An unquoted value ends where its suffix's comment begins, or before. */
  lemma CommentStartsBy(list: string, suffix: string, k: nat)
    requires Tail(suffix) && k == Leading(list + suffix, BLANK)
    ensures k <= BeforeComment(list, suffix) && CommentStart((list + suffix)[k..]) <= BeforeComment(list, suffix) - k
  {
    hide Tail, Leading;
    var w, n := list + suffix, BeforeComment(list, suffix);
    if SpaceHash(suffix) < |suffix| {
      assert w[n] == '#' && w[n - 1] == ' ';
      var v := w[k..];
      assert v[n - k] == '#';
      if k < n {
        assert v[n - 1 - k] == ' ';
      }
    }
  }

  /** Blanks, any list of supported characters and a tail are read as some list, and
      as that one exactly when it is empty or nothing is cut from its ends. */
  lemma UnquotedRelisted(head: string, lead: string, list: string, suffix: string) returns (e: Entry)
    requires (forall i | 0 <= i < |lead| :: lead[i] in BLANK) && Tail(suffix) && NoComment(list) && !HasAny(list, UNSUPPORTED)
    ensures ParseComposeFileValue(head, lead + list + suffix) == Ok(e) && e.index == 0
    ensures e.files == Split(list, ':') <==> list == "" || Ends(list)
    ensures Ends(list) ==> e == Entry(0, head + lead, "", Split(list, ':'), suffix)
    ensures |Join(e.files, ':')| <= |list| + |suffix|
  {
    hide Tail, Split, Leading, UnquotedEnd, HasAny;
    JoinSplit(list, ':');
    if Ends(list) {
      UnquotedIsRead(head, lead, list, suffix);
      e := Entry(0, head + lead, "", Split(list, ':'), suffix);
    } else {
      var v := UnquotedShapeOf(head, lead, list, suffix);
      e := ParseComposeFileValue(head, lead + list + suffix).value;
      var read := v[..UnquotedEnd(v)];
      EndsOrEmpty(v);
      assert read != "" ==> read[|read| - 1] in read;
      JoinSplit(read, ':');
    }
  }

  lemma EndsOrEmpty(v: string)
    requires v == "" || v[0] !in BLANK
    ensures v[..UnquotedEnd(v)] == "" || Ends(v[..UnquotedEnd(v)])
  {
  }

  /** What is parsed of such a value, and that it is made of the list's characters. */
  lemma UnquotedShapeOf(head: string, lead: string, list: string, suffix: string) returns (v: string)
    requires (forall i | 0 <= i < |lead| :: lead[i] in BLANK) && Tail(suffix) && !HasAny(list, UNSUPPORTED)
    ensures (v == "" || v[0] !in BLANK) && |v| <= |list| + |suffix|
    ensures forall c | c in v[..UnquotedEnd(v)] :: c in list || c in BLANK
    ensures ParseComposeFileValue(head, lead + list + suffix).Ok?
    ensures var e := ParseComposeFileValue(head, lead + list + suffix).value;
            e.index == 0 && e.files == Split(v[..UnquotedEnd(v)], ':')
  {
    hide Tail, Split, Leading, UnquotedEnd, HasAny;
    var value, w := lead + list + suffix, list + suffix;
    var k := Leading(w, BLANK);
    assert value == lead + w;
    LeadingIs(value, BLANK, |lead| + k);
    v := w[k..];
    assert value[|lead| + k..] == v;
    ReadIsMadeOfList(list, suffix, k);
    StaysUnquoted(list, v[..UnquotedEnd(v)]);
    FirstIsNoQuote(list, suffix, k);
  }

  lemma ReadIsMadeOfList(list: string, suffix: string, k: nat)
    requires Tail(suffix) && k == Leading(list + suffix, BLANK)
    ensures var v := (list + suffix)[k..]; forall c | c in v[..UnquotedEnd(v)] :: c in list || c in BLANK
  {
    hide Tail, Leading, CommentStart;
    var v := (list + suffix)[k..];
    CommentStartsBy(list, suffix, k);
    forall i | 0 <= i < CommentStart(v)
      ensures v[i] in list || v[i] in BLANK
    {
      BeforeCommentIsBlank(list, suffix, k + i);
    }
  }

  lemma StaysUnquoted(list: string, read: string)
    requires !HasAny(list, UNSUPPORTED) && forall c | c in read :: c in list || c in BLANK
    ensures !HasAny(read, UNSUPPORTED)
  {
    assert forall c | c in BLANK :: c !in UNSUPPORTED;
  }

  lemma FirstIsNoQuote(list: string, suffix: string, k: nat)
    requires Tail(suffix) && !HasAny(list, UNSUPPORTED) && k == Leading(list + suffix, BLANK)
    ensures k < |list + suffix| ==> (list + suffix)[k] !in {'"', '\''}
  {
    hide Tail, Leading;
    CommentStartsBy(list, suffix, k);
    if k < BeforeComment(list, suffix) {
      BeforeCommentIsBlank(list, suffix, k);
    }
  }

  // ---- The value and the line -----------------------------------------------

  /** The list is read back from this entry's place as it stands there. */
  predicate Survives(e: Entry, list: string) {
    e.quote != "" || list == "" || (Ends(list) && (list[|list| - 1] == '\r' ==> exists c | c in e.suffix :: c != '\r'))
  }

  /** A list made of an entry's own characters and separators. */
  predicate MadeOf(list: string, e: Entry) {
    && (forall c | c in list :: c == ':' || c in Join(e.files, ':'))
    && (e.quote == "" ==> NoComment(list) && Join(e.files, ':') != "")
  }

  lemma StaysQuotable(list: string, list2: string, q: char)
    requires Quotable(list, q) && forall c | c in list2 :: c == ':' || c in list
    ensures Quotable(list2, q)
  {
  }

  lemma NonEmptyIsSolid(v: string)
    requires (v == "" || v[0] !in BLANK) && v[..UnquotedEnd(v)] != ""
    ensures Solid(v[..UnquotedEnd(v)])
  {
  }

  /** An unquoted entry that lists anything was read from blanks, a list and a tail. */
  lemma UnquotedParts(head: string, value: string, entry: Entry) returns (lead: string, list: string)
    requires ParseComposeFileValue(head, value) == Ok(entry) && entry.quote == "" && Join(entry.files, ':') != ""
    ensures value == lead + list + entry.suffix && entry == Entry(0, head + lead, "", Split(list, ':'), entry.suffix)
    ensures list == Join(entry.files, ':') && Solid(list) && Tail(entry.suffix) && !HasAny(list, UNSUPPORTED)
    ensures forall i | 0 <= i < |lead| :: lead[i] in BLANK
  {
    hide UnquotedEnd, Tail, Split, Solid, ParseComposeFileValue, HasAny, Join;
    UnquotedShape(head, value, entry);
    lead := value[..Leading(value, BLANK)];
    var v := value[|lead|..];
    list := v[..UnquotedEnd(v)];
    JoinSplit(list, ':');
    NonEmptyIsSolid(v);
    assert v == list + entry.suffix && value == lead + list + entry.suffix;
    SolidEnds(list, entry.suffix);
  }

  lemma StaysSupported(list: string, list2: string)
    requires !HasAny(list, UNSUPPORTED) && forall c | c in list2 :: c == ':' || c in list
    ensures !HasAny(list2, UNSUPPORTED)
  {
  }

  lemma ValueRelisted(head: string, value: string, entry: Entry, list: string) returns (value2: string, e: Entry)
    requires ParseComposeFileValue(head, value) == Ok(entry) && MadeOf(list, entry)
    ensures Relisted(entry, list) == head + value2 && ParseComposeFileValue(head, value2) == Ok(e) && e.index == 0
    ensures e.files == Split(list, ':') <==> entry.quote != "" || list == "" || Ends(list)
    ensures entry.quote != "" || Ends(list) ==> e == entry.(files := Split(list, ':'))
    ensures entry.quote == "" ==> |Join(e.files, ':')| <= |list| + |entry.suffix|
    ensures |entry.prefix| >= |head| && (forall i | |head| <= i < |entry.prefix| :: entry.prefix[i] in BLANK) && head <= entry.prefix
  {
    hide ParseComposeFileValue, Split, Join, Tail, Quotable, Comment, HasAny, Ends, NoComment, Leading;
    if entry.quote != "" {
      var lead, q, own := QuotedWasRead(head, value, entry);
      JoinSplit(own, ':');
      StaysQuotable(own, list, q);
      QuotedIsRead(head, lead, q, list, entry.suffix);
      value2, e := lead + [q] + list + [q] + entry.suffix, entry.(files := Split(list, ':'));
    } else {
      var lead, own := UnquotedParts(head, value, entry);
      StaysSupported(own, list);
      e := UnquotedRelisted(head, lead, list, entry.suffix);
      value2 := lead + list + entry.suffix;
    }
  }

  /** What of the list the line keeps: returns that would end it are its ending. */
  function Kept(e: Entry, list: string): string {
    if e.quote == "" && e.suffix == "" then TrimRight(list, RETURN) else list
  }

  lemma KeptIsMadeOf(list: string, e: Entry)
    requires MadeOf(list, e)
    ensures MadeOf(Kept(e, list), e)
  {
    hide Trailing;
    assert forall c | c in Kept(e, list) :: c in list;
    assert forall i | 0 <= i < |Kept(e, list)| :: Kept(e, list)[i] == list[i];
  }

  /** The line ends where its kept list, or what follows that, does. */
  lemma RelistedEnds(head: string, e: Entry, list: string, cr: string)
    requires head != "" && head[|head| - 1] != '\r' && head <= e.prefix
    requires forall i | |head| <= i < |e.prefix| :: e.prefix[i] in BLANK
    requires (e.suffix != "" ==> e.suffix[|e.suffix| - 1] != '\r') && (e.quote != "" ==> |e.quote| == 1 && e.quote[0] != '\r')
    requires forall c | c in cr :: c == '\r'
    ensures
      var raw := Relisted(e.(suffix := e.suffix + cr), list);
      && TrimRight(raw, RETURN) == Relisted(e, Kept(e, list))
      && raw == Relisted(e, Kept(e, list)) + list[|Kept(e, list)|..] + cr
  {
    hide Trailing, TrimRight;
    var kept := Kept(e, list);
    var line, raw := Relisted(e, kept), Relisted(e.(suffix := e.suffix + cr), list);
    CutIsReturns(list);
    LastChar(head, e, kept);
    if kept == list {
      assert list[|kept|..] == "";
      Reassociate(e.prefix, e.quote, list, e.suffix, cr);
      assert line + "" + cr == line + cr;
      OnlyReturnsFollow(line, cr);
    } else {
      var rest := list[|kept|..] + cr;
      assert raw == line + list[|kept|..] + cr;
      assert line + list[|kept|..] + cr == line + rest;
      OnlyReturnsFollow(line, rest);
    }
  }

  lemma CutIsReturns(list: string)
    ensures var kept := TrimRight(list, RETURN);
            |kept| <= |list| && list == kept + list[|kept|..] && forall c | c in list[|kept|..] :: c == '\r'
    ensures var kept := TrimRight(list, RETURN); kept != "" ==> kept[|kept| - 1] != '\r'
  {
    hide Trailing;
  }

  lemma Reassociate(a: string, b: string, c: string, d: string, e: string)
    ensures a + b + c + b + (d + e) == a + b + c + b + d + e
  {
  }

  lemma OnlyReturnsFollow(line: string, rest: string)
    requires line != "" && line[|line| - 1] != '\r' && forall c | c in rest :: c == '\r'
    ensures TrimRight(line + rest, RETURN) == line
  {
    var raw := line + rest;
    forall i | |line| <= i < |raw|
      ensures raw[i] in RETURN
    {
      assert raw[i] == rest[i - |line|] && rest[i - |line|] in rest;
    }
    TrailingIs(raw, RETURN, |line|);
  }

  lemma LastChar(head: string, e: Entry, list: string)
    requires head != "" && head[|head| - 1] != '\r' && head <= e.prefix
    requires forall i | |head| <= i < |e.prefix| :: e.prefix[i] in BLANK
    requires (e.suffix != "" ==> e.suffix[|e.suffix| - 1] != '\r') && (e.quote != "" ==> |e.quote| == 1 && e.quote[0] != '\r')
    requires e.quote == "" && e.suffix == "" && list != "" ==> list[|list| - 1] != '\r'
    ensures var line := Relisted(e, list); line != "" && line[|line| - 1] != '\r'
  {
    var line := Relisted(e, list);
    if e.suffix != "" {
      assert line[|line| - 1] == e.suffix[|e.suffix| - 1];
    } else if e.quote != "" {
      assert line[|line| - 1] == e.quote[0];
    } else if list != "" {
      assert line[|line| - 1] == list[|list| - 1];
    } else {
      assert line == e.prefix;
      assert e.prefix[|head| - 1] == head[|head| - 1];
    }
  }

  lemma HeadEndsInSeparator(line: string)
    requires SplitAssignment(line).KeyValue?
    ensures
      var n := |line| - |SplitAssignment(line).value|;
      0 < n <= |line| && line[n - 1] in ASSIGNS
  {
    hide KeyStart, Leading, IndexAny;
    var body := line[KeyStart(line)..];
    var at := IndexAny(body, ASSIGNS);
    assert |line| - |SplitAssignment(line).value| == KeyStart(line) + at + 1;
    assert body[at] == line[KeyStart(line) + at];
  }

  /** The line with another list in it is read as an entry in its place, whose list is
      that one exactly when it survives. Then nothing else of the entry has changed,
      unless an empty list has let its blanks run into the prefix. */
  lemma LineRelisted(raw: string, i: nat, entry: Entry, list: string) returns (e: Entry)
    requires ReadLine(raw, i, Closed) == Ok(Reading(Closed, [entry])) && MadeOf(list, entry)
    ensures ReadLine(Relisted(entry, list), i, Closed) == Ok(Reading(Closed, [e])) && e.index == i
    ensures e.files == Split(list, ':') <==> Survives(entry, list)
    ensures Survives(entry, list) && (entry.quote != "" || list != "") ==> e == entry.(files := Split(list, ':'))
  {
    hide ParseComposeFileValue, SplitAssignment, SkipValue, Join, Split, Trailing, MadeOf, Relisted, Ends;
    var line := TrimRight(raw, RETURN);
    var value := SplitAssignment(line).value;
    ValueSuffix(line, value);
    HeadEndsInSeparator(line);
    var head, cr := line[..|line| - |value|], raw[|line|..];
    var parsed := ParseComposeFileValue(head, value).value;
    LastOfLine(head, value, parsed, raw, line);
    assert entry == parsed.(index := i, suffix := parsed.suffix + cr);
    var kept := Kept(parsed, list);
    OfParsed(list, entry, parsed);
    KeptIsMadeOf(list, parsed);
    var value2, e0 := ValueRelisted(head, value, parsed, kept);
    QuoteIsOne(head, value, parsed);
    RelistedEnds(head, parsed, list, cr);
    SameRelisted(entry, parsed, cr, list);
    SameHead(line, value2);
    var raw2 := Relisted(entry, list);
    var line2 := head + value2;
    assert line2[..|line2| - |value2|] == head;
    e := e0.(index := i, suffix := e0.suffix + raw2[|line2|..]);
    assert raw2[|line2|..] == list[|kept|..] + cr;
    ListSurvives(entry, parsed, cr, list, e0);
    if kept == list {
      assert list[|kept|..] + cr == cr;
    }
  }

  lemma SameRelisted(entry: Entry, parsed: Entry, cr: string, list: string)
    requires entry.prefix == parsed.prefix && entry.quote == parsed.quote && entry.suffix == parsed.suffix + cr
    ensures Relisted(entry, list) == Relisted(parsed.(suffix := parsed.suffix + cr), list)
  {
  }

  lemma OfParsed(list: string, entry: Entry, parsed: Entry)
    requires MadeOf(list, entry) && entry.quote == parsed.quote && entry.files == parsed.files
    ensures MadeOf(list, parsed)
  {
  }

  lemma QuoteIsOne(head: string, value: string, parsed: Entry)
    requires ParseComposeFileValue(head, value) == Ok(parsed)
    ensures |parsed.quote| <= 1
  {
    hide UnquotedEnd, Split, HasAny, TrimLeft, IndexAny, Leading;
  }

  lemma ListSurvives(entry: Entry, parsed: Entry, cr: string, list: string, e0: Entry)
    requires entry.quote == parsed.quote && entry.suffix == parsed.suffix + cr && (forall c | c in cr :: c == '\r')
    requires parsed.suffix != "" ==> parsed.suffix[|parsed.suffix| - 1] != '\r'
    requires var kept := Kept(parsed, list);
             && (e0.files == Split(kept, ':') <==> parsed.quote != "" || kept == "" || Ends(kept))
             && (parsed.quote == "" ==> |Join(e0.files, ':')| <= |kept| + |parsed.suffix|)
    ensures e0.files == Split(list, ':') <==> Survives(entry, list)
    ensures Survives(entry, list) ==> Kept(parsed, list) == list
    ensures Survives(entry, list) && (entry.quote != "" || list != "") ==> entry.quote != "" || Ends(list)
  {
    hide Split, Join, Trailing;
    var kept := Kept(parsed, list);
    JoinSplit(list, ':');
    if parsed.suffix != "" {
      assert parsed.suffix[|parsed.suffix| - 1] in entry.suffix;
    } else {
      assert entry.suffix == cr;
    }
    if kept != list {
      assert |kept| < |list| && list[|list| - 1] == '\r';
    } else if list != "" && parsed.quote == "" && parsed.suffix == "" {
      assert Trailing(list, RETURN) == |list|;
    }
  }

  /** An entry's list is its own line's list, cut at the separators. */
  lemma EntryIsOfList(raw: string, i: nat, entry: Entry)
    requires ReadLine(raw, i, Closed) == Ok(Reading(Closed, [entry]))
    ensures entry.files == Split(Join(entry.files, ':'), ':') && Relisted(entry, Join(entry.files, ':')) == raw
    ensures entry.quote == "" && Join(entry.files, ':') != "" ==> NoComment(Join(entry.files, ':'))
  {
    hide ParseComposeFileValue, SplitAssignment, SkipValue, Join, Split, Trailing;
    RenderIsIdentity(raw, i, entry);
    var line := TrimRight(raw, RETURN);
    var value := SplitAssignment(line).value;
    SplitShortens(line);
    var head := line[..|line| - |value|];
    var parsed := ParseComposeFileValue(head, value).value;
    assert entry.quote == parsed.quote && entry.files == parsed.files;
    if entry.quote != "" {
      var lead, q, list := QuotedWasRead(head, value, parsed);
      JoinSplit(list, ':');
    } else if Join(entry.files, ':') != "" {
      var lead, list := UnquotedParts(head, value, parsed);
      SolidHasNoComment(list);
    } else {
      UnquotedFiles(head, value, parsed);
    }
  }

  lemma UnquotedFiles(head: string, value: string, parsed: Entry)
    requires ParseComposeFileValue(head, value) == Ok(parsed) && parsed.quote == ""
    ensures parsed.files == Split(Join(parsed.files, ':'), ':')
  {
    hide ParseComposeFileValue, Split, Join, UnquotedEnd;
    UnquotedShape(head, value, parsed);
    var v := value[Leading(value, BLANK)..];
    JoinSplit(v[..UnquotedEnd(v)], ':');
  }

  lemma SolidHasNoComment(list: string)
    requires Solid(list)
    ensures NoComment(list)
  {
  }
}
