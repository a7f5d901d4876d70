/** One COMPOSE_FILE line: rendering it with its own files gives it back, and
    with one more file gives a line that is read as just that. */
module EnvEntries {
  import opened Texts
  import opened EnvLines

  const SPECIAL: set<char> := {':', '\\', '$', '"', '\'', '#'}

  /** Free of separators, quotes, escapes, interpolation, comment marks and
      white space. */
  predicate Clean(name: string) {
    name != "" && forall c | c in name :: c !in SPECIAL && c !in SPACE
  }

  /** A list compose loads: names, and no white space around any. */
  predicate Loadable(files: seq<string>) {
    files != [] && forall f | f in files :: f != "" && Trim(f, SPACE) == f
  }

  predicate Agree(s: string, t: string, n: nat) {
    n <= |s| && n <= |t| && s[..n] == t[..n]
  }

  lemma AgreeAt(s: string, t: string, n: nat, k: nat)
    requires Agree(s, t, n) && k <= n
    ensures Agree(s[k..], t[k..], n - k) && (k < n ==> s[k] == t[k]) && s[..k] == t[..k]
  {
    assert s[k..][..n - k] == s[..n][k..] && t[k..][..n - k] == t[..n][k..];
    assert s[..k] == s[..n][..k] && t[..k] == t[..n][..k];
    assert k < n ==> s[k] == s[..n][k] && t[k] == t[..n][k];
  }

  lemma AgreeLeading(s: string, t: string, n: nat, cut: set<char>)
    requires Agree(s, t, n) && Leading(s, cut) < n
    ensures Leading(t, cut) == Leading(s, cut)
  {
    forall i | 0 <= i <= Leading(s, cut)
      ensures t[i] == s[i]
    {
      AgreeAt(s, t, n, i);
    }
    LeadingIs(t, cut, Leading(s, cut));
  }

  lemma AgreeIndexAny(s: string, t: string, n: nat, seek: set<char>)
    requires Agree(s, t, n) && IndexAny(s, seek) < n
    ensures IndexAny(t, seek) == IndexAny(s, seek)
  {
    forall i | 0 <= i <= IndexAny(s, seek)
      ensures t[i] == s[i]
    {
      AgreeAt(s, t, n, i);
    }
    IndexAnyIs(t, seek, IndexAny(s, seek));
  }

  /** No separator is part of "export", so one settles whether the word is there. */
  lemma AgreeExport(rest: string, rest2: string, n: nat)
    requires 0 < n && Agree(rest, rest2, n) && rest[n - 1] in ASSIGNS
    ensures HasExport(rest) <==> HasExport(rest2)
  {
    AgreeAt(rest, rest2, n, n - 1);
    if n >= 7 {
      AgreeAt(rest, rest2, n, 6);
    } else {
      var k := n - 1;
      if |rest| > 6 {
        assert rest[..6][k] in ASSIGNS || k == 6;
      }
      if |rest2| > 6 {
        assert rest2[..6][k] in ASSIGNS || k == 6;
      }
      assert forall i | 0 <= i < 6 :: "export"[i] !in ASSIGNS;
    }
  }

  lemma AgreeKeyStart(line: string, line2: string, n: nat)
    requires Agree(line, line2, n) && KeyStart(line) < n && line[n - 1] in ASSIGNS
    ensures KeyStart(line2) == KeyStart(line) && Leading(line2, BLANK) == Leading(line, BLANK) < n
  {
    hide HasExport, Agree;
    var lead := Leading(line, BLANK);
    AgreeLeading(line, line2, n, BLANK);
    AgreeAt(line, line2, n, lead);
    assert line[lead..][n - lead - 1] == line[n - 1];
    AgreeExport(line[lead..], line2[lead..], n - lead);
    if HasExport(line[lead..]) {
      AgreeAt(line, line2, n, lead + 6);
      AgreeLeading(line[lead + 6..], line2[lead + 6..], n - lead - 6, BLANK);
    }
  }

  /** A line's key is read alike whatever follows its separator. */
  lemma SameHead(line: string, value: string)
    requires SplitAssignment(line).KeyValue?
    ensures
      var a := SplitAssignment(line);
      |a.value| < |line| && SplitAssignment(line[..|line| - |a.value|] + value) == KeyValue(a.key, value)
  {
    hide KeyStart, Agree, Trim, Leading, IndexAny;
    var a := SplitAssignment(line);
    var start := KeyStart(line);
    var at := IndexAny(line[start..], ASSIGNS);
    var n := start + at + 1;
    assert a.value == line[n..] && line[..|line| - |a.value|] == line[..n];
    var line2 := line[..n] + value;
    assert Agree(line, line2, n) by { Agreeing(line, value, n); }
    assert line[start..][at] == line[n - 1];
    AgreeKeyStart(line, line2, n);
    AgreeAt(line, line2, n, start);
    AgreeIndexAny(line[start..], line2[start..], at + 1, ASSIGNS);
    AgreeAt(line[start..], line2[start..], at + 1, at);
    assert line2[start..][at + 1..] == value;
    var lead := Leading(line, BLANK);
    AgreeAt(line, line2, n, lead);
    assert line[lead..] != "" && line[lead..][0] == line[lead] && line2[lead..][0] == line2[lead];
  }

  lemma Agreeing(line: string, value: string, n: nat)
    requires n <= |line|
    ensures Agree(line, line[..n] + value, n)
  {
  }

  // ---- The value, with one more name in its list ----------------------------

  lemma SpaceHashIs(v: string, n: nat)
    requires n <= |v| && forall i | 0 <= i < n && i + 1 < |v| :: !(v[i] == ' ' && v[i + 1] == '#')
    requires n < |v| ==> n + 1 < |v| && v[n] == ' ' && v[n + 1] == '#'
    ensures SpaceHash(v) == n
  {
  }

  /** A list a comment could not begin in, and no blank at its end could be cut from. */
  predicate Solid(list: string) {
    && list != "" && list[0] != '#' && list[|list| - 1] !in BLANK
    && forall i | 0 <= i < |list| - 1 :: !(list[i] == ' ' && list[i + 1] == '#')
  }

  /** What follows an unquoted list: blanks, and from there on perhaps a comment. */
  predicate Tail(suffix: string) {
    forall i | 0 <= i < (if SpaceHash(suffix) < |suffix| then SpaceHash(suffix) + 1 else |suffix|) :: suffix[i] in BLANK
  }

  /** Where a solid list ends does not depend on the list. */
  lemma SolidEnds(list: string, suffix: string)
    requires Solid(list)
    ensures UnquotedEnd(list + suffix) == |list| <==> Tail(suffix)
  {
    var v, n := list + suffix, SpaceHash(suffix);
    assert forall i | 0 <= i < |suffix| :: v[|list| + i] == suffix[i];
    assert SpaceHash(v) == |list| + n by {
      forall i | 0 <= i < |list| + n && i + 1 < |v|
        ensures !(v[i] == ' ' && v[i + 1] == '#')
      {
        if i >= |list| {
          assert v[i] == suffix[i - |list|] && v[i + 1] == suffix[i - |list| + 1];
        } else if i == |list| - 1 {
          assert v[i] == list[|list| - 1];
        } else {
          assert v[i] == list[i] && v[i + 1] == list[i + 1];
        }
      }
      SpaceHashIs(v, |list| + n);
    }
    var cut := v[..CommentStart(v)];
    if Tail(suffix) {
      TrailingIs(cut, BLANK, |list|);
    } else if Trailing(cut, BLANK) == |list| {
      assert forall i | |list| <= i < |cut| :: cut[i] == suffix[i - |list|];
      assert forall i | 0 <= i < |cut| - |list| :: suffix[i] == cut[|list| + i];
      assert false;
    }
  }

  lemma LongerIsSolid(list: string, name: string)
    requires Solid(list) && Clean(name)
    ensures Solid(list + ":" + name)
  {
    var longer := list + ":" + name;
    assert longer[|longer| - 1] == name[|name| - 1] && name[|name| - 1] in name;
    forall i | 0 <= i < |longer| - 1
      ensures !(longer[i] == ' ' && longer[i + 1] == '#')
    {
      if i >= |list| {
        assert i == |list| || longer[i] == name[i - |list| - 1];
      }
    }
  }

  lemma NothingIsNotLoadable()
    ensures !Loadable(Split("", ':'))
  {
    var parts := Split("", ':');
    assert parts[0] == "" && parts[0] in parts;
  }

  /** A loadable list read from an unquoted value is solid. */
  lemma LoadableIsSolid(v: string)
    requires v == "" || v[0] !in BLANK
    requires Loadable(Split(v[..UnquotedEnd(v)], ':'))
    ensures Solid(v[..UnquotedEnd(v)])
  {
    NothingIsNotLoadable();
  }

  lemma ListMore(list: string, name: string)
    requires ':' !in name
    ensures Split(list + ":" + name, ':') == Split(list, ':') + [name]
  {
    var files := Split(list, ':');
    JoinSplit(list, ':');
    SplitPartsAreFree(list, ':');
    JoinMore(files, ':', name);
    assert Join(files + [name], ':') == list + [':'] + name;
    SplitJoin(files + [name], ':');
    assert list + ":" + name == list + [':'] + name;
  }

  /** Blanks, a solid list of supported characters and a tail are read as such. */
  lemma UnquotedIsRead(head: string, lead: string, list: string, suffix: string)
    requires (forall i | 0 <= i < |lead| :: lead[i] in BLANK) && Solid(list) && list[0] !in BLANK && Tail(suffix)
    requires !HasAny(list, UNSUPPORTED)
    ensures ParseComposeFileValue(head, lead + list + suffix) == Ok(Entry(0, head + lead, "", Split(list, ':'), suffix))
  {
    hide UnquotedEnd, Tail, Split, Leading;
    var value := lead + list + suffix;
    LeadingIs(value, BLANK, |lead|);
    assert value[..|lead|] == lead && value[|lead|..] == list + suffix;
    SolidEnds(list, suffix);
    assert (list + suffix)[..|list|] == list && (list + suffix)[|list|..] == suffix;
    assert list[0] in list;
  }

  lemma UnquotedShape(head: string, value: string, entry: Entry)
    requires ParseComposeFileValue(head, value) == Ok(entry) && entry.quote == ""
    ensures
      var lead := Leading(value, BLANK);
      var v := value[lead..];
      && entry == Entry(0, head + value[..lead], "", Split(v[..UnquotedEnd(v)], ':'), v[UnquotedEnd(v)..])
      && !HasAny(v[..UnquotedEnd(v)], UNSUPPORTED) && (v == "" || v[0] !in BLANK)
  {
    hide UnquotedEnd, Split, HasAny, IndexAny, TrimLeft;
  }

  /** The other way: an unquoted, loadable entry was read from just that. */
  lemma UnquotedWasRead(head: string, value: string, entry: Entry) returns (lead: string, list: string)
    requires ParseComposeFileValue(head, value) == Ok(entry) && entry.quote == "" && Loadable(entry.files)
    ensures value == lead + list + entry.suffix && entry == Entry(0, head + lead, "", Split(list, ':'), entry.suffix)
    ensures Solid(list) && list[0] !in BLANK && Tail(entry.suffix) && !HasAny(list, UNSUPPORTED)
    ensures forall i | 0 <= i < |lead| :: lead[i] in BLANK
  {
    hide UnquotedEnd, Tail, Split, Solid, Loadable, ParseComposeFileValue, HasAny;
    UnquotedShape(head, value, entry);
    lead := value[..Leading(value, BLANK)];
    var v := value[|lead|..];
    list := v[..UnquotedEnd(v)];
    LoadableIsSolid(v);
    assert v == list + entry.suffix && value == lead + list + entry.suffix;
    SolidEnds(list, entry.suffix);
    SolidMeans(list);
    assert v[0] == list[0];
  }

  lemma SolidMeans(list: string)
    requires Solid(list)
    ensures list != ""
  {
  }

  /** The unquoted value with one more name. */
  lemma UnquotedMore(head: string, lead: string, list: string, suffix: string, name: string)
    requires (forall i | 0 <= i < |lead| :: lead[i] in BLANK) && Solid(list) && list[0] !in BLANK && Tail(suffix)
    requires !HasAny(list, UNSUPPORTED) && Clean(name)
    ensures ParseComposeFileValue(head, lead + (list + ":" + name) + suffix)
         == Ok(Entry(0, head + lead, "", Split(list, ':') + [name], suffix))
  {
    hide ParseComposeFileValue, Solid, Tail, Split;
    LongerIsSolid(list, name);
    SolidMeans(list);
    ListMore(list, name);
    forall c | c in list + ":" + name
      ensures c !in UNSUPPORTED
    {
      assert c in list || c == ':' || c in name;
    }
    UnquotedIsRead(head, lead, list + ":" + name, suffix);
  }

  /** What may follow a closing quote: blanks, and then nothing or a comment. */
  predicate Comment(suffix: string) {
    var rest := TrimLeft(suffix, BLANK);
    rest == "" || rest[0] == '#'
  }

  /** What a list between quotes `q` may hold. */
  predicate Quotable(list: string, q: char) {
    q in {'"', '\''} && q !in list && '\\' !in list && !(q == '"' && '$' in list)
  }

  lemma QuotedIsRead(head: string, lead: string, q: char, list: string, suffix: string)
    requires (forall i | 0 <= i < |lead| :: lead[i] in BLANK) && Quotable(list, q) && Comment(suffix)
    ensures ParseComposeFileValue(head, lead + [q] + list + [q] + suffix) == Ok(Entry(0, head + lead, [q], Split(list, ':'), suffix))
  {
    hide UnquotedEnd, Split, Leading, HasAny, TrimLeft;
    var value := lead + [q] + list + [q] + suffix;
    LeadingIs(value, BLANK, |lead|);
    var v := value[|lead|..];
    assert value[..|lead|] == lead && v == [q] + list + [q] + suffix;
    assert v[1..][|list|] == q && forall i | 0 <= i < |list| :: v[1..][i] == list[i] && list[i] in list;
    IndexAnyIs(v[1..], {q}, |list|);
    assert v[1..1 + |list|] == list && v[2 + |list|..] == suffix;
  }

  lemma QuotedShape(head: string, value: string, entry: Entry)
    requires ParseComposeFileValue(head, value) == Ok(entry) && entry.quote != ""
    ensures
      var lead := Leading(value, BLANK);
      var v := value[lead..];
      && v != "" && v[0] in {'"', '\''}
      && var end := IndexAny(v[1..], {v[0]});
      && end < |v| - 1 && Comment(v[2 + end..])
      && entry == Entry(0, head + value[..lead], [v[0]], Split(v[1..1 + end], ':'), v[2 + end..])
      && '\\' !in v[1..1 + end] && !(v[0] == '"' && '$' in v[1..1 + end])
  {
    hide UnquotedEnd, Split, HasAny, TrimLeft, IndexAny, Leading;
  }

  lemma QuotedParts(head: string, value: string, entry: Entry) returns (lead: string, q: char, list: string)
    requires ParseComposeFileValue(head, value) == Ok(entry) && entry.quote != ""
    ensures lead == value[..Leading(value, BLANK)] && value[|lead|..] == [q] + list + [q] + entry.suffix
    ensures entry == Entry(0, head + lead, [q], Split(list, ':'), entry.suffix)
    ensures Quotable(list, q) && Comment(entry.suffix)
  {
    hide ParseComposeFileValue, UnquotedEnd, Split, HasAny, TrimLeft, Comment;
    QuotedShape(head, value, entry);
    lead := value[..Leading(value, BLANK)];
    var v := value[|lead|..];
    q := v[0];
    var end := IndexAny(v[1..], {q});
    list := v[1..1 + end];
    Between(v, end);
  }

  lemma QuotedWasRead(head: string, value: string, entry: Entry) returns (lead: string, q: char, list: string)
    requires ParseComposeFileValue(head, value) == Ok(entry) && entry.quote != ""
    ensures value == lead + [q] + list + [q] + entry.suffix
    ensures entry == Entry(0, head + lead, [q], Split(list, ':'), entry.suffix)
    ensures Quotable(list, q) && Comment(entry.suffix) && forall i | 0 <= i < |lead| :: lead[i] in BLANK
  {
    hide ParseComposeFileValue, Split, Comment, Quotable, Leading;
    lead, q, list := QuotedParts(head, value, entry);
    assert value == lead + value[|lead|..];
    Regroup(lead, [q], list, entry.suffix);
  }

  lemma Between(v: string, end: nat)
    requires v != "" && end == IndexAny(v[1..], {v[0]}) < |v| - 1
    ensures v[0] !in v[1..1 + end] && v == [v[0]] + v[1..1 + end] + [v[0]] + v[2 + end..]
  {
    assert forall i | 0 <= i < end :: v[1..1 + end][i] == v[1..][i];
    assert v[1..][end] == v[1 + end];
  }

  lemma Regroup(a: string, b: string, c: string, d: string)
    ensures a + (b + c + b + d) == a + b + c + b + d
  {
  }

  lemma LongerIsQuotable(list: string, q: char, name: string)
    requires Quotable(list, q) && Clean(name)
    ensures Quotable(list + ":" + name, q)
  {
    forall c | c in list + ":" + name
      ensures c in list || c == ':' || c in name
    {
    }
  }

  /** Rendering a parsed value with its own files gives it back, and rendering it
      with one more name gives a value that is read as just that. */
  lemma ValueMore(head: string, value: string, entry: Entry, name: string) returns (value2: string)
    requires ParseComposeFileValue(head, value) == Ok(entry)
    ensures entry.Render(entry.files) == head + value
    ensures Loadable(entry.files) && Clean(name) ==>
              && entry.Render(entry.files + [name]) == head + value2
              && ParseComposeFileValue(head, value2) == Ok(entry.(files := entry.files + [name]))
              && value2 != "" && value2[|value2| - 1] == (if entry.suffix != "" then entry.suffix[|entry.suffix| - 1]
                                                         else if entry.quote != "" then entry.quote[0] else name[|name| - 1])
  {
    hide ParseComposeFileValue, Split, Join, Loadable, Solid, Tail, Quotable, Comment, HasAny;
    var lead, list, suffix := "", "", entry.suffix;
    value2 := "";
    if entry.quote != "" {
      var q;
      lead, q, list := QuotedWasRead(head, value, entry);
      JoinSplit(list, ':');
      if Loadable(entry.files) && Clean(name) {
        LongerIsQuotable(list, q, name);
        QuotedIsRead(head, lead, q, list + ":" + name, suffix);
        ListMore(list, name);
        JoinMore(entry.files, ':', name);
        value2 := lead + [q] + (list + ":" + name) + [q] + suffix;
      }
    } else {
      UnquotedRenders(head, value, entry);
      if Loadable(entry.files) && Clean(name) {
        lead, list := UnquotedWasRead(head, value, entry);
        JoinSplit(list, ':');
        UnquotedMore(head, lead, list, suffix, name);
        JoinMore(entry.files, ':', name);
        value2 := lead + (list + ":" + name) + suffix;
      }
    }
  }

  lemma UnquotedRenders(head: string, value: string, entry: Entry)
    requires ParseComposeFileValue(head, value) == Ok(entry) && entry.quote == ""
    ensures entry.Render(entry.files) == head + value
  {
    hide ParseComposeFileValue, Split, Join, HasAny, UnquotedEnd, Leading;
    UnquotedShape(head, value, entry);
    var lead := Leading(value, BLANK);
    var v := value[lead..];
    var list := v[..UnquotedEnd(v)];
    JoinSplit(list, ':');
    assert value == value[..lead] + (list + v[UnquotedEnd(v)..]);
  }

  // ---- The line -------------------------------------------------------------

  /** Rendering an entry with its own files gives back its line. */
  lemma RenderIsIdentity(raw: string, i: nat, entry: Entry)
    requires ReadLine(raw, i, Closed) == Ok(Reading(Closed, [entry]))
    ensures entry.Render(entry.files) == raw
  {
    hide ParseComposeFileValue, SplitAssignment, SkipValue, Join;
    var line := TrimRight(raw, RETURN);
    var value := SplitAssignment(line).value;
    SplitShortens(line);
    var head := line[..|line| - |value|];
    var parsed := ParseComposeFileValue(head, value).value;
    ValueSuffix(line, value);
    var value2 := ValueMore(head, value, parsed, "");
    assert raw == line + raw[|line|..];
  }

  lemma ValueSuffix(line: string, value: string)
    requires SplitAssignment(line).KeyValue? && value == SplitAssignment(line).value
    ensures |value| < |line| && line == line[..|line| - |value|] + value
  {
  }

  /** Rendering it with one more name gives a line read as the longer list. */
  lemma LineMore(raw: string, i: nat, entry: Entry, name: string)
    requires ReadLine(raw, i, Closed) == Ok(Reading(Closed, [entry])) && Loadable(entry.files) && Clean(name)
    ensures ReadLine(entry.Render(entry.files + [name]), i, Closed)
         == Ok(Reading(Closed, [entry.(files := entry.files + [name])]))
  {
    hide ParseComposeFileValue, SplitAssignment, SkipValue, Join, Loadable, Clean, Trailing;
    var line := TrimRight(raw, RETURN);
    var value := SplitAssignment(line).value;
    ValueSuffix(line, value);
    var head, cr := line[..|line| - |value|], raw[|line|..];
    var parsed := ParseComposeFileValue(head, value).value;
    var value2 := ValueMore(head, value, parsed, name);
    SameHead(line, value2);
    var raw2 := entry.Render(entry.files + [name]);
    assert raw2 == head + value2 + cr;
    LastOfLine(head, value, parsed, raw, line);
    LastOfName(name);
    assert TrimRight(raw2, RETURN) == head + value2 by {
      forall k | |head + value2| <= k < |raw2|
        ensures raw2[k] in RETURN
      {
        assert raw2[k] == raw[|line| + k - |head + value2|];
      }
      TrailingIs(raw2, RETURN, |head + value2|);
    }
    assert (head + value2)[..|head + value2| - |value2|] == head && raw2[|head + value2|..] == cr;
  }

  lemma LastOfName(name: string)
    requires Clean(name)
    ensures name != "" && name[|name| - 1] != '\r'
  {
    assert name[|name| - 1] in name;
  }

  /** A parsed suffix or quote never ends in a return: those belong to the line. */
  lemma LastOfLine(head: string, value: string, parsed: Entry, raw: string, line: string)
    requires line == TrimRight(raw, RETURN) && line == head + value && ParseComposeFileValue(head, value) == Ok(parsed)
    ensures parsed.suffix != "" ==> parsed.suffix[|parsed.suffix| - 1] != '\r'
    ensures parsed.quote != "" ==> parsed.quote[0] != '\r'
  {
    hide Split, Join, UnquotedEnd;
    if parsed.suffix != "" {
      assert parsed.suffix[|parsed.suffix| - 1] == line[|line| - 1];
    }
  }
}
