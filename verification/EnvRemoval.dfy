/** Taking the override out of an .env file: which names stay, in which order, and
    what the file is then read as. */
module EnvRemoval {
  import opened Texts
  import opened EnvLines
  import opened EnvEntries
  import opened EnvFile
  import opened EnvRelist

  // ---- The names that stay --------------------------------------------------

  /** Nothing that is the override stays, everything else does as often as it was
      there, and the order is kept: each part of the list loses its own. */
  lemma {:induction false} WithoutKeepsTheRest(files: seq<string>, o: Override, f: string)
    ensures multiset(Without(files, o))[f] == if o.Is(f) then 0 else multiset(files)[f]
    decreases |files|
  {
    hide Override.Is;
    if files != [] {
      assert files == [files[0]] + files[1..];
      WithoutKeepsTheRest(files[1..], o, f);
    }
  }

  lemma {:induction false} WithoutKeepsOrder(a: seq<string>, b: seq<string>, o: Override)
    ensures Without(a + b, o) == Without(a, o) + Without(b, o)
    decreases |a|
  {
    hide Override.Is;
    if a == [] {
      assert a + b == b;
    } else {
      assert (a + b)[1..] == a[1..] + b;
      WithoutKeepsOrder(a[1..], b, o);
    }
  }

  lemma {:induction false} NothingTakenOut(files: seq<string>, o: Override)
    ensures |Without(files, o)| <= |files| && forall f | f in Without(files, o) :: f in files && !o.Is(f)
    ensures |Without(files, o)| == |files| <==> !o.ListedIn(files)
    decreases |files|
  {
    hide Override.Is;
    if files != [] {
      NothingTakenOut(files[1..], o);
      assert o.ListedIn(files) <==> o.Is(files[0]) || o.ListedIn(files[1..]) by {
        assert forall f | f in files :: f == files[0] || f in files[1..];
      }
    }
  }

  // ---- Their characters -----------------------------------------------------

  lemma {:induction false} JoinChars(parts: seq<string>, c: char)
    requires c != ':'
    ensures c in Join(parts, ':') <==> exists part | part in parts :: c in part
    decreases |parts|
  {
    if |parts| == 1 {
      assert parts[0] in parts;
    } else if parts != [] {
      JoinChars(parts[1..], c);
      assert forall part | part in parts :: part == parts[0] || part in parts[1..];
    }
  }

  lemma {:induction false} JoinHasNoComment(parts: seq<string>)
    ensures NoComment(Join(parts, ':')) <==> forall part | part in parts :: NoComment(part)
    decreases |parts|
  {
    if |parts| == 1 {
      assert parts[0] in parts;
    } else if parts != [] {
      JoinHasNoComment(parts[1..]);
      SeparatedHasNoComment(parts[0], Join(parts[1..], ':'));
      assert forall part | part in parts :: part == parts[0] || part in parts[1..];
    }
  }

  lemma SeparatedHasNoComment(a: string, b: string)
    ensures NoComment(a + [':'] + b) <==> NoComment(a) && NoComment(b)
  {
    var s := a + [':'] + b;
    assert forall i | 0 <= i < |a| :: s[i] == a[i];
    assert forall i | 0 <= i < |b| :: s[|a| + 1 + i] == b[i];
    if NoComment(s) {
      forall i | 0 <= i < |a| - 1
        ensures !(a[i] == ' ' && a[i + 1] == '#')
      {
        assert s[i] == a[i] && s[i + 1] == a[i + 1];
      }
      forall i | 0 <= i < |b| - 1
        ensures !(b[i] == ' ' && b[i + 1] == '#')
      {
        assert s[|a| + 1 + i] == b[i] && s[|a| + 1 + i + 1] == b[i + 1];
      }
    }
  }

  /** The list that stays is made of the entry's own characters. */
  lemma KeptListIsMadeOf(e: Entry, kept: seq<string>)
    requires forall f | f in kept :: f in e.files
    requires e.quote == "" ==> Join(e.files, ':') != "" && NoComment(Join(e.files, ':'))
    ensures MadeOf(Join(kept, ':'), e)
  {
    hide NoComment;
    forall c | c in Join(kept, ':') && c != ':'
      ensures c in Join(e.files, ':')
    {
      JoinChars(kept, c);
      JoinChars(e.files, c);
    }
    JoinHasNoComment(kept);
    JoinHasNoComment(e.files);
  }

  // ---- The file -------------------------------------------------------------

  function RelistedFile(f: Env, e: Entry, list: string): Env
    requires e.index < |f.lines|
  {
    Env(f.bom, f.lines[e.index := Relisted(e, list)])
  }

  lemma RelistedStaysWellFormed(f: Env, e: Entry, list: string)
    requires WellFormed(f) && e.index < |f.lines| && f.lines[e.index] == Relisted(e, Join(e.files, ':')) && e.prefix != ""
    requires forall c | c in list :: c == ':' || c in Join(e.files, ':')
    ensures WellFormed(RelistedFile(f, e, list))
  {
    hide Join;
    var own := Join(e.files, ':');
    var was, now := Relisted(e, own), Relisted(e, list);
    assert was in f.lines;
    RelistedHasNone(e, own, list, '\n');
    assert now[0] == was[0];
    var f2 := RelistedFile(f, e, list);
    forall line | line in f2.lines
      ensures '\n' !in line
    {
      assert line == now || line in f.lines;
    }
    assert f2.lines[0] == if e.index == 0 then now else f.lines[0];
  }

  lemma RelistedHasNone(e: Entry, own: string, list: string, c: char)
    requires c != ':' && c !in Relisted(e, own) && forall d | d in list :: d == ':' || d in own
    ensures c !in Relisted(e, list)
  {
    assert Relisted(e, own) == e.prefix + (e.quote + (own + (e.quote + e.suffix)));
    assert c !in e.prefix && c !in e.quote && c !in own && c !in e.suffix;
  }

  /** A found entry was read from its line alone, and is of that line's list. */
  lemma FoundOnItsLine(f: Env, e: Entry)
    requires FindComposeFile(f.lines) == Ok([e])
    ensures e.index < |f.lines| && e.prefix != ""
    ensures ReadLines(f.lines[..e.index]) == Ok(Reading(Closed, []))
    ensures ReadLine(f.lines[e.index], e.index, Closed) == Ok(Reading(Closed, [e]))
    ensures e.files == Split(Join(e.files, ':'), ':') && f.lines[e.index] == Relisted(e, Join(e.files, ':'))
    ensures e.quote == "" && Join(e.files, ':') != "" ==> NoComment(Join(e.files, ':'))
  {
    hide ReadLine, ReadLines, Join, Split, Relisted, NoComment;
    var left := ReadLines(f.lines).value.left;
    EntryHasItsLine(f.lines, left, e);
    EntryIsOfItsLine(f.lines[e.index], e.index, Closed, e);
    EntryIsOfList(f.lines[e.index], e.index, e);
  }

  /** Printed and parsed again, the relisted file has one entry, in its place. */
  lemma RelistedIsRead(env: string, e: Entry, list: string) returns (e2: Entry)
    requires FindComposeFile(Parse(env).lines) == Ok([e])
    requires MadeOf(list, e) || list == Join(e.files, ':')
    ensures
      var f2 := RelistedFile(Parse(env), e, list);
      Parse(f2.Print()) == f2 && FindComposeFile(f2.lines) == Ok([e2]) && e2.index == e.index
    ensures e2.files == Split(list, ':') <==> Survives(e, list) || list == Join(e.files, ':')
    ensures Survives(e, list) && (e.quote != "" || list != "") ==> e2 == e.(files := Split(list, ':'))
  {
    hide ReadLine, ReadLines, Parse, Join, Split, Relisted, NoComment, Ends, Env.Print;
    var f := Parse(env);
    FoundOnItsLine(f, e);
    var f2 := RelistedFile(f, e, list);
    if list == Join(e.files, ':') {
      e2 := e;
    } else {
      e2 := LineRelisted(f.lines[e.index], e.index, e, list);
    }
    var left := ReadLines(f.lines).value.left;
    assert f.lines[..|f.lines|] == f.lines && f2.lines[..|f.lines|] == f2.lines;
    RewrittenLine(f.lines, left, e, f2.lines[e.index], e2, |f.lines|);
    ParseIsWellFormed(env);
    RelistedStaysWellFormed(f, e, list);
    PrintParse(f2);
  }

  /** Taking out an override that is not listed changes nothing. Otherwise, unless
      nothing is left and the line goes, the file keeps every other line, and its
      entry is read as the list that stays exactly if that list survives there. A
      line kept with nothing on it lists one empty name. */
  lemma TakeOutIsRead(env: string, o: Override, keepLine: bool, e: Entry) returns (e2: Entry)
    requires FindComposeFile(Parse(env).lines) == Ok([e])
    ensures !o.ListedIn(e.files) ==> TakeOut(env, o, keepLine) == Ok(env)
    ensures o.ListedIn(e.files) && (keepLine || Without(e.files, o) != []) ==>
      var kept := if Without(e.files, o) == [] then [""] else Without(e.files, o);
      var f2 := RelistedFile(Parse(env), e, Join(kept, ':'));
      && TakeOut(env, o, keepLine) == Ok(f2.Print())
      && Parse(f2.Print()) == f2 && FindComposeFile(f2.lines) == Ok([e2]) && e2.index == e.index
      && (e2.files == kept <==> Survives(e, Join(kept, ':')))
      && (Survives(e, Join(kept, ':')) && (e.quote != "" || Join(kept, ':') != "") ==> e2 == e.(files := kept))
  {
    hide ReadLines, Parse, Join, Split, Relisted, NoComment, Ends, Env.Print, Override.Is, Without, FindComposeFile, TakeOut,
         RelistedFile, Survives, MadeOf;
    var f, without := Parse(env), Without(e.files, o);
    TakeOutRelists(env, o, keepLine, e);
    NothingTakenOut(e.files, o);
    e2 := e;
    if o.ListedIn(e.files) && (keepLine || without != []) {
      FoundOnItsLine(f, e);
      var kept := if without == [] then [""] else without;
      KeptListReads(e, without, kept);
      e2 := RelistedIsRead(env, e, Join(kept, ':'));
    }
  }

  /** What TakeOut does, as lines. */
  lemma TakeOutRelists(env: string, o: Override, keepLine: bool, e: Entry)
    requires FindComposeFile(Parse(env).lines) == Ok([e])
    ensures
      var without := Without(e.files, o);
      TakeOut(env, o, keepLine) ==
        if |without| == |e.files| then Ok(env)
        else if without == [] && !keepLine then Ok(Parse(env).RemoveLine(e.index).Print())
        else Ok(RelistedFile(Parse(env), e, Join(without, ':')).Print())
  {
    hide FindComposeFile, Parse, Join, Without, Env.Print;
  }

  /** What staying names come to as a list. */
  lemma KeptListReads(e: Entry, without: seq<string>, kept: seq<string>)
    requires e.files == Split(Join(e.files, ':'), ':') && |without| < |e.files|
    requires e.quote == "" && Join(e.files, ':') != "" ==> NoComment(Join(e.files, ':'))
    requires (forall f | f in without :: f in e.files) && kept == if without == [] then [""] else without
    ensures Join(without, ':') == Join(kept, ':') && Split(Join(kept, ':'), ':') == kept
    ensures MadeOf(Join(kept, ':'), e) || Join(kept, ':') == Join(e.files, ':')
    ensures Join(kept, ':') == Join(e.files, ':') ==> Survives(e, Join(kept, ':'))
  {
    hide NoComment;
    SplitPartsAreFree(Join(e.files, ':'), ':');
    SplitJoin(kept, ':');
    if Join(e.files, ':') == "" {
      assert |e.files| == 1 && without == [];
    } else {
      KeptListIsMadeOf(e, without);
    }
    if Join(kept, ':') == Join(e.files, ':') {
      assert kept == e.files;
    }
  }

  // ---- The line that goes ---------------------------------------------------

  /** Without the entry's line, every other line is read as before. */
  lemma {:induction false} RemovedLine(lines: seq<string>, left: Open, e: Entry, n: nat)
    requires e.index < n <= |lines| && ReadLines(lines[..n]) == Ok(Reading(left, [e]))
    requires ReadLines(lines[..e.index]) == Ok(Reading(Closed, []))
    requires ReadLine(lines[e.index], e.index, Closed) == Ok(Reading(Closed, [e]))
    ensures ReadLines(lines[..e.index] + lines[e.index + 1..n]) == Ok(Reading(left, []))
    decreases n
  {
    hide ReadLine, ReadLines;
    var i := e.index;
    ReadPrefix(lines, n);
    if n == i + 1 {
      assert lines[..i] + lines[i + 1..n] == lines[..i];
    } else {
      var before := ReadLines(lines[..n - 1]).value;
      var read := ReadLine(lines[n - 1], n - 1, before.left).value;
      StillFound(lines, e, n - 1);
      assert before.found == [e] && read.found == [];
      RemovedLine(lines, before.left, e, n - 1);
      LeavingOut(lines, i, n);
      ReadOneMore(lines[..i] + lines[i + 1..n - 1], lines[n - 1]);
      NumberOnlyNames(lines[n - 1], n - 1, n - 2, before.left);
      var none: seq<Entry> := [];
      assert none + none == none;
    }
  }

  lemma ReadPrefix(lines: seq<string>, n: nat)
    requires 0 < n <= |lines|
    ensures ReadLines(lines[..n]) == ReadNext(ReadLines(lines[..n - 1]), lines[n - 1], n - 1)
  {
    hide ReadLine;
    assert lines[..n][..n - 1] == lines[..n - 1];
  }

  lemma LeavingOut(lines: seq<string>, i: nat, n: nat)
    requires i + 1 < n <= |lines|
    ensures lines[..i] + lines[i + 1..n] == lines[..i] + lines[i + 1..n - 1] + [lines[n - 1]]
    ensures |lines[..i] + lines[i + 1..n - 1]| == n - 2
  {
  }

  /** A line's number matters only to the entry it sets. */
  lemma NumberOnlyNames(raw: string, i: nat, j: nat, left: Open)
    requires ReadLine(raw, i, left).Ok? && ReadLine(raw, i, left).value.found == []
    ensures ReadLine(raw, j, left) == ReadLine(raw, i, left)
  {
    hide ParseComposeFileValue, SplitAssignment, SkipValue, ClosingQuote, AfterQuote, TrimRight;
  }

  /** Removing the first line would bring a mark to the front of the file. */
  predicate MarkSurfaces(f: Env, i: nat) {
    f.bom == "" && i == 0 && |f.lines| > 1 && f.lines[1] != "" && f.lines[1][0] == BYTE_ORDER_MARK
  }

  lemma RemovalStaysWellFormed(f: Env, i: nat)
    requires WellFormed(f) && i < |f.lines|
    ensures WellFormed(f.RemoveLine(i)) <==> !MarkSurfaces(f, i)
  {
    var f2 := f.RemoveLine(i);
    forall line | line in f2.lines
      ensures '\n' !in line
    {
      assert line == "" || line in f.lines;
    }
    assert |f.lines| > 1 ==> f2.lines[0] == if i == 0 then f.lines[1] else f.lines[0];
  }

  /** With the entry's line gone, no other line has changed and none sets
      COMPOSE_FILE. Printed and parsed again the lines are the same, unless a mark
      comes to the front. */
  lemma DroppedLine(env: string, e: Entry)
    requires FindComposeFile(Parse(env).lines) == Ok([e])
    ensures
      var f2 := Parse(env).RemoveLine(e.index);
      && FindComposeFile(f2.lines) == Ok([])
      && (Parse(f2.Print()) == f2 <==> !MarkSurfaces(Parse(env), e.index))
  {
    hide ReadLine, ReadLines, Parse, Env.Print, Split, Join;
    var f := Parse(env);
    var i, n := e.index, |f.lines|;
    FoundOnItsLine(f, e);
    var left := ReadLines(f.lines).value.left;
    assert f.lines[..n] == f.lines;
    RemovedLine(f.lines, left, e, n);
    assert f.lines[..i] + f.lines[i + 1..] == f.lines[..i] + f.lines[i + 1..n];
    if f.lines[..i] + f.lines[i + 1..] == [] {
      NothingSetsNothing();
    }
    ParseIsWellFormed(env);
    RemovalStaysWellFormed(f, i);
    var f2 := f.RemoveLine(i);
    ParseIsWellFormed(f2.Print());
    if !MarkSurfaces(f, i) {
      PrintParse(f2);
    }
  }

  /** Nothing is left of the list and the line is not kept, or it is to go whatever
      it lists: then the line is dropped. */
  lemma TakeOutDropsTheLine(env: string, o: Override, e: Entry)
    requires FindComposeFile(Parse(env).lines) == Ok([e])
    ensures Without(e.files, o) == [] ==> TakeOut(env, o, false) == Ok(Parse(env).RemoveLine(e.index).Print())
    ensures RemoveComposeFileLine(env) == Ok(Parse(env).RemoveLine(e.index).Print())
  {
    hide ReadLine, ReadLines, Parse, Env.Print, Split, Join, Override.Is;
    FoundOnItsLine(Parse(env), e);
    NothingTakenOut(e.files, o);
  }

  lemma NothingSetsNothing()
    ensures ReadLines([""]) == Ok(Reading(Closed, []))
  {
    hide ReadLine;
    NothingIsRead(0, Closed);
    ReadOneMore([], "");
    var none: seq<Entry> := [];
    assert none + none == none && [] + [""] == [""];
  }

  // ---- A list that does not survive -----------------------------------------

  const NUMBERED := "#1.yml"

  lemma NumberedIsPlain()
    ensures |NUMBERED| == 6 && NUMBERED[0] == '#' && NUMBERED[5] == 'l'
    ensures forall c | c in NUMBERED :: c != ':' && c != '\n' && c !in SPACE && c !in UNSUPPORTED
  {
  }

  lemma PlainChars(name: string)
    requires Clean(name)
    ensures forall c | c in name + [':'] + NUMBERED :: c != ' ' && c != '\n' && c !in UNSUPPORTED
    ensures ':' !in name && name != "" && name[0] !in BLANK && name[0] != '#'
  {
    hide SPACE, SPECIAL, Clean;
    CleanChars(name);
    NumberedIsPlain();
    forall c | c in name + [':'] + NUMBERED
      ensures c != ' ' && c != '\n' && c !in UNSUPPORTED
    {
      assert c in name || c == ':' || c in NUMBERED;
      UnsupportedIsSpecial(c);
    }
    UnsupportedIsSpecial(':');
    UnsupportedIsSpecial(name[0]);
  }

  lemma ListedBefore(name: string)
    requires Clean(name)
    ensures
      var list := name + [':'] + NUMBERED;
      && Split(list, ':') == [name, NUMBERED] && Solid(list) && list[0] !in BLANK && !HasAny(list, UNSUPPORTED)
      && list[|list| - 1] != '\r' && '\n' !in list
  {
    hide Clean, Split, UNSUPPORTED, SPACE;
    var list := name + [':'] + NUMBERED;
    PlainChars(name);
    NumberedIsPlain();
    SplitFirst(name, ':', NUMBERED);
    SplitOne(NUMBERED, ':');
    assert [name] + [NUMBERED] == [name, NUMBERED];
    assert list[0] == name[0] && list[|list| - 1] == NUMBERED[5];
    assert forall i | 0 <= i < |list| :: list[i] in list;
  }

  lemma UnsupportedIsSpecial(c: char)
    ensures c in UNSUPPORTED ==> c in SPECIAL
    ensures c in {' ', '\t', '\n', '\r'} ==> c in SPACE
    ensures ':' !in UNSUPPORTED && ':' in SPECIAL
  {
  }

  lemma OneLine(line: string, e: Entry)
    requires line != "" && line[0] != BYTE_ORDER_MARK && '\n' !in line
    requires ReadLine(line, 0, Closed) == Ok(Reading(Closed, [e]))
    ensures Parse(line) == Env("", [line]) && FindComposeFile([line]) == Ok([e])
  {
    hide ReadLine;
    SplitOne(line, '\n');
    ReadOneMore([], line);
    assert [] + [e] == [e] && [] + [line] == [line];
  }

  /** A file that lists the override and, after it, a name that begins like a
      comment: with the override taken out, that name is not read any more. */
  lemma ANameTurnsIntoAComment(o: Override, keepLine: bool) returns (env: string, e: Entry, e2: Entry)
    requires Clean(o.name) && !o.Is(NUMBERED)
    ensures FindComposeFile(Parse(env).lines) == Ok([e]) && e.files == [o.name, NUMBERED]
    ensures TakeOut(env, o, keepLine) == Ok(COMPOSE_FILE + "=" + NUMBERED)
    ensures FindComposeFile(Parse(COMPOSE_FILE + "=" + NUMBERED).lines) == Ok([e2]) && e2.files != [NUMBERED]
  {
    hide ReadLine, FindComposeFile, TakeOut, Clean, Solid, Split, Parse, SPACE, HasAny, Override.ListedIn;
    var list := o.name + [':'] + NUMBERED;
    env := COMPOSE_FILE + "=" + list;
    e := Entry(0, COMPOSE_FILE + "=", "", [o.name, NUMBERED], "");
    ListedBefore(o.name);
    ListLineIsRead(list, "", 0);
    assert env + "" == env;
    assert env[0] == 'C' && '\n' !in COMPOSE_FILE + "=";
    OneLine(env, e);
    e2 := TakeOutIsRead(env, o, keepLine, e);
    LeavesNumbered(o, e);
    RelistedAs(e);
  }

  lemma RelistedAs(e: Entry)
    requires e.prefix == COMPOSE_FILE + "=" && e.quote == "" && e.suffix == "" && e.index == 0
    ensures forall line :: RelistedFile(Env("", [line]), e, NUMBERED) == Env("", [COMPOSE_FILE + "=" + NUMBERED])
    ensures Env("", [COMPOSE_FILE + "=" + NUMBERED]).Print() == COMPOSE_FILE + "=" + NUMBERED
  {
    assert COMPOSE_FILE + "=" + "" + NUMBERED + "" + "" == COMPOSE_FILE + "=" + NUMBERED;
  }

  lemma LeavesNumbered(o: Override, e: Entry)
    requires e.files == [o.name, NUMBERED] && !o.Is(NUMBERED) && e.quote == ""
    ensures o.ListedIn(e.files) && Without(e.files, o) == [NUMBERED] && Join([NUMBERED], ':') == NUMBERED
    ensures !Survives(e, NUMBERED)
  {
    assert o.Is(o.name) && o.name in e.files;
    assert e.files == [o.name] + [NUMBERED] && [NUMBERED][1..] == [];
    assert Without([], o) == [];
    WithoutKeepsOrder([o.name], [NUMBERED], o);
    assert Without([NUMBERED], o) == [NUMBERED] + Without([NUMBERED][1..], o);
    assert Without([o.name], o) == [] + Without([o.name][1..], o);
    NumberedIsPlain();
  }
}
