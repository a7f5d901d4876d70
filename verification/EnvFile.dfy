/** Editing an .env file in place: parsing and printing undo each other, and what
    an install writes into COMPOSE_FILE a removal takes out again. */
module EnvFile {
  import opened Texts
  import opened EnvLines
  import opened EnvEntries

  const BYTE_ORDER_MARK := '\U{feff}'

  // ---- Parsing and printing -------------------------------------------------

  /** The lines of a file cut at line feeds alone, its byte order mark apart. */
  datatype Env = Env(bom: string, lines: seq<string>) {
    function Print(): string {
      bom + Join(lines, '\n')
    }

    /** A return where the file uses one before any of its line breaks. */
    function Ending(): (eol: string)
      requires lines != []
      ensures eol in {"", "\r"}
    {
      if exists i | 0 <= i < |lines| - 1 :: EndsInReturn(lines[i]) then "\r" else ""
    }

    function AppendLine(line: string): Env
      requires lines != []
    {
      var last, eol := |lines| - 1, Ending();
      if lines[last] == "" then Env(bom, lines[..last] + [line + eol, ""])
      else Env(bom, lines[..last] + [lines[last] + eol, line + eol, ""])
    }

    function RemoveLine(i: nat): Env
      requires i < |lines|
    {
      var rest := lines[..i] + lines[i + 1..];
      Env(bom, if rest == [] then [""] else rest)
    }
  }

  predicate EndsInReturn(line: string) {
    line != "" && line[|line| - 1] == '\r'
  }

  function Parse(s: string): (f: Env)
    ensures f.lines != []
  {
    if s != "" && s[0] == BYTE_ORDER_MARK then Env([BYTE_ORDER_MARK], Split(s[1..], '\n')) else Env("", Split(s, '\n'))
  }

  /** Printing a parsed file gives back every character. */
  lemma ParsePrint(s: string)
    ensures Parse(s).Print() == s
  {
    if s != "" && s[0] == BYTE_ORDER_MARK {
      JoinSplit(s[1..], '\n');
    } else {
      JoinSplit(s, '\n');
    }
  }

  /** What Parse makes: no line holds a line feed, and a mark is never a line's. */
  predicate WellFormed(f: Env) {
    && f.lines != [] && (forall line | line in f.lines :: '\n' !in line)
    && (f.bom == [BYTE_ORDER_MARK] || (f.bom == "" && (f.lines[0] == "" || f.lines[0][0] != BYTE_ORDER_MARK)))
  }

  lemma ParseIsWellFormed(s: string)
    ensures WellFormed(Parse(s))
  {
    var body := if s != "" && s[0] == BYTE_ORDER_MARK then s[1..] else s;
    SplitPartsAreFree(body, '\n');
    FirstPart(body, '\n');
  }

  lemma FirstPart(s: string, sep: char)
    ensures Split(s, sep)[0] != "" ==> s != "" && Split(s, sep)[0][0] == s[0]
  {
  }

  /** Parsing a printed file gives back its lines. */
  lemma PrintParse(f: Env)
    requires WellFormed(f)
    ensures Parse(f.Print()) == f
  {
    SplitJoin(f.lines, '\n');
    if f.bom == "" {
      assert f.Print() == Join(f.lines, '\n');
      FirstPart(f.Print(), '\n');
    } else {
      assert f.Print()[1..] == Join(f.lines, '\n');
    }
  }

  // ---- Finding the entry ----------------------------------------------------

  /** The one COMPOSE_FILE entry of a file, if it has one. */
  function FindComposeFile(lines: seq<string>): (r: Result<seq<Entry>>)
    ensures r.Ok? && r.value != [] ==> |r.value| == 1 && r.value[0].index < |lines|
  {
    match ReadLines(lines)
    case Err(problem) => Err(problem)
    case Ok(all) => if |all.found| > 1 then Err(SetTwice) else EntryIsInside(lines, all); Ok(all.found)
  }

  lemma EntryIsInside(lines: seq<string>, all: Reading)
    requires ReadLines(lines) == Ok(all)
    ensures |all.found| == 1 ==> all.found[0].index < |lines|
  {
    hide ReadLine, ReadLines;
    if |all.found| == 1 {
      assert all.found == [all.found[0]];
      EntryHasItsLine(lines, all.left, all.found[0]);
    }
  }

  function FirstProblem(files: seq<string>): Result<seq<string>> {
    if files == [] then Ok([])
    else if files[0] == "" then Err(ListsAnEmptyName)
    else if Trim(files[0], SPACE) != files[0] then Err(ListsASpacedName)
    else FirstProblem(files[1..])
  }

  /** The same for an install, which refuses lists compose cannot load. */
  function StrictComposeFile(lines: seq<string>): (r: Result<seq<Entry>>)
    ensures r.Ok? ==> FindComposeFile(lines) == r
  {
    match FindComposeFile(lines)
    case Err(problem) => Err(problem)
    case Ok(found) =>
      if found == [] then Ok([])
      else if Trim(Join(found[0].files, ':'), {':', ' ', '\t'}) == "" then Err(ListsNoFiles)
      else
        match FirstProblem(found[0].files)
        case Err(problem) => Err(problem)
        case Ok(_) => Ok(found)
  }

  lemma {:induction false} FirstProblemIsExact(files: seq<string>)
    ensures FirstProblem(files).Ok? <==> forall f | f in files :: f != "" && Trim(f, SPACE) == f
    decreases |files|
  {
    hide Trim, SPACE;
    if files != [] {
      FirstProblemIsExact(files[1..]);
      assert files[0] in files && forall f | f in files[1..] :: f in files;
      assert forall f | f in files :: f == files[0] || f in files[1..];
    }
  }

  /** An entry was read from the line it says, with no quote open there, and alone. */
  lemma {:induction false} EntryHasItsLine(lines: seq<string>, left: Open, e: Entry)
    requires ReadLines(lines) == Ok(Reading(left, [e]))
    ensures e.index < |lines| && ReadLines(lines[..e.index]) == Ok(Reading(Closed, []))
    ensures ReadLine(lines[e.index], e.index, Closed) == Ok(Reading(Closed, [e]))
    decreases |lines|
  {
    hide ReadLine;
    var n := |lines| - 1;
    var before := ReadLines(lines[..n]).value;
    var read := ReadLine(lines[n], n, before.left).value;
    assert before.found + read.found == [e];
    if read.found == [] {
      assert before.found == [e];
      EntryHasItsLine(lines[..n], before.left, e);
      assert lines[..n][..e.index] == lines[..e.index];
    } else {
      assert before.found == [];
      EntryIsOfItsLine(lines[n], n, before.left, e);
    }
  }

  lemma EntryIsOfItsLine(raw: string, i: nat, left: Open, e: Entry)
    requires ReadLine(raw, i, left).Ok? && ReadLine(raw, i, left).value.found == [e]
    ensures left == Closed && e.index == i && ReadLine(raw, i, left).value.left == Closed && e.prefix != ""
  {
    hide SplitAssignment, AfterQuote, SkipValue, ClosingQuote, TrimRight;
    var line := TrimRight(raw, RETURN);
    match left
    case Within(_) =>
    case Closed =>
      SplitShortens(line);
      var value := SplitAssignment(line).value;
      var head := line[..|line| - |value|];
      if ParseComposeFileValue(head, value).Ok? {
        assert head <= ParseComposeFileValue(head, value).value.prefix;
      }
  }

  /** Rewriting the entry's line rewrites the entry and nothing else. */
  lemma {:induction false} RewrittenLine(lines: seq<string>, left: Open, e: Entry, raw: string, e2: Entry, n: nat)
    requires e.index < n <= |lines| && ReadLines(lines[..n]) == Ok(Reading(left, [e]))
    requires ReadLines(lines[..e.index]) == Ok(Reading(Closed, []))
    requires ReadLine(lines[e.index], e.index, Closed) == Ok(Reading(Closed, [e]))
    requires ReadLine(raw, e.index, Closed) == Ok(Reading(Closed, [e2]))
    ensures ReadLines(lines[e.index := raw][..n]) == Ok(Reading(left, [e2]))
    decreases n
  {
    hide ReadLine;
    var after := lines[e.index := raw];
    assert lines[..n][..n - 1] == lines[..n - 1] && after[..n][..n - 1] == after[..n - 1];
    if n == e.index + 1 {
      assert after[..n - 1] == lines[..e.index];
      assert [] + [e2] == [e2] && [] + [e] == [e];
    } else {
      var before := ReadLines(lines[..n - 1]).value;
      var read := ReadLine(lines[n - 1], n - 1, before.left).value;
      StillFound(lines, e, n - 1);
      assert before.found == [e] && read.found == [];
      RewrittenLine(lines, before.left, e, raw, e2, n - 1);
      assert [e2] + [] == [e2];
    }
  }

  /** What has been found stays found. */
  lemma {:induction false} StillFound(lines: seq<string>, e: Entry, n: nat)
    requires e.index < n <= |lines| && ReadLines(lines[..n]).Ok?
    requires ReadLines(lines[..e.index]) == Ok(Reading(Closed, []))
    requires ReadLine(lines[e.index], e.index, Closed) == Ok(Reading(Closed, [e]))
    ensures [e] <= ReadLines(lines[..n]).value.found
    decreases n
  {
    hide ReadLine;
    assert lines[..n][..n - 1] == lines[..n - 1];
    if n == e.index + 1 {
      assert lines[..n - 1] == lines[..e.index];
      assert [] + [e] == [e];
    } else {
      StillFound(lines, e, n - 1);
    }
  }

  // ---- Editing --------------------------------------------------------------

  /** The installer's override: how a list may name it. `resolves` decides whether
      some other spelling leads to the same file. */
  datatype Override = Override(name: string, path: string, resolves: string -> bool) {
    predicate Is(file: string) {
      file == name || (path != "" && file == path) || (file != "" && resolves(file))
    }

    predicate ListedIn(files: seq<string>) {
      exists f | f in files :: Is(f)
    }

    /** How a list of this kind would name it. */
    function NameFor(files: seq<string>): (n: string)
      ensures Is(n)
    {
      if path != "" && files != [] && forall f | f in files :: f != "" && f[0] == '/' then path else name
    }
  }

  function NewLine(baseFiles: seq<string>, o: Override): string {
    COMPOSE_FILE + "=" + Join(baseFiles + [o.name], ':')
  }

  /** Makes the file's COMPOSE_FILE list the override. */
  function AddOverrideEntry(env: string, baseFiles: seq<string>, o: Override): Result<string> {
    var f := Parse(env);
    match StrictComposeFile(f.lines)
    case Err(problem) => Err(problem)
    case Ok(found) =>
      if found == [] then Ok(f.AppendLine(NewLine(baseFiles, o)).Print())
      else if o.ListedIn(found[0].files) then Ok(env)
      else
        var e := found[0];
        Ok(Env(f.bom, f.lines[e.index := e.Render(e.files + [o.NameFor(e.files)])]).Print())
  }

  function Without(files: seq<string>, o: Override): seq<string> {
    if files == [] then []
    else (if o.Is(files[0]) then [] else [files[0]]) + Without(files[1..], o)
  }

  /** Takes the override out of the list again. */
  function TakeOut(env: string, o: Override, keepLine: bool): Result<string> {
    var f := Parse(env);
    match FindComposeFile(f.lines)
    case Err(problem) => Err(problem)
    case Ok(found) =>
      if found == [] then Ok(env)
      else
        var e := found[0];
        var kept := Without(e.files, o);
        if |kept| == |e.files| then Ok(env)
        else if kept == [] && !keepLine then Ok(f.RemoveLine(e.index).Print())
        else Ok(Env(f.bom, f.lines[e.index := e.Render(kept)]).Print())
  }

  /** Drops the whole line. */
  function RemoveComposeFileLine(env: string): Result<string> {
    var f := Parse(env);
    match FindComposeFile(f.lines)
    case Err(problem) => Err(problem)
    case Ok(found) =>
      if found == [] then Ok(env) else Ok(f.RemoveLine(found[0].index).Print())
  }

  // ---- Adding and removing --------------------------------------------------

  lemma TrimNothing(cut: set<char>)
    ensures Trim("", cut) == ""
  {
  }

  lemma StrictIsLoadable(lines: seq<string>)
    requires StrictComposeFile(lines).Ok? && StrictComposeFile(lines).value != []
    ensures Loadable(StrictComposeFile(lines).value[0].files)
  {
    hide Trim, SPACE, FindComposeFile;
    TrimNothing({':', ' ', '\t'});
    FirstProblemIsExact(StrictComposeFile(lines).value[0].files);
  }

  lemma LoadableIsStrict(lines: seq<string>, e: Entry)
    requires FindComposeFile(lines) == Ok([e]) && Loadable(e.files) && exists f | f in e.files :: Clean(f)
    ensures StrictComposeFile(lines) == Ok([e])
  {
    hide SPACE, FindComposeFile, Trim;
    FirstProblemIsExact(e.files);
    var f :| f in e.files && Clean(f);
    CleanStays(e.files, f);
  }

  /** A list with a clean name in it does not look empty. */
  lemma CleanStays(files: seq<string>, f: string)
    requires f in files && Clean(f)
    ensures Trim(Join(files, ':'), {':', ' ', '\t'}) != ""
  {
    var list, cut := Join(files, ':'), {':', ' ', '\t'};
    var i := HasPart(files, f);
    assert list[i] == f[0] && f[0] in f;
    assert list[i] !in cut;
    var n := Trailing(list, cut);
    assert i < n;
    assert TrimRight(list, cut)[i] !in cut;
    assert Leading(TrimRight(list, cut), cut) <= i;
  }

  lemma {:induction false} HasPart(files: seq<string>, f: string) returns (i: nat)
    requires f in files && f != ""
    ensures i < |Join(files, ':')| && Join(files, ':')[i] == f[0]
    decreases |files|
  {
    if files[0] == f {
      i := 0;
    } else {
      var k := HasPart(files[1..], f);
      i := |files[0]| + 1 + k;
    }
  }

  lemma {:induction false} WithoutTheNew(files: seq<string>, name: string, o: Override)
    requires !o.ListedIn(files) && o.Is(name)
    ensures Without(files + [name], o) == files
    decreases |files|
  {
    hide Override.Is;
    if files == [] {
      assert [name][1..] == [] && files + [name] == [name];
    } else {
      assert files[0] in files && (files + [name])[1..] == files[1..] + [name];
      assert forall f | f in files[1..] :: f in files;
      WithoutTheNew(files[1..], name, o);
    }
  }

  /** The file with one more name in its entry. */
  function Extended(f: Env, e: Entry, name: string): Env
    requires e.index < |f.lines|
  {
    Env(f.bom, f.lines[e.index := e.Render(e.files + [name])])
  }

  /** Printed and parsed again, the longer entry is what is read. */
  lemma ExtendedIsRead(env: string, e: Entry, name: string)
    requires FindComposeFile(Parse(env).lines) == Ok([e]) && Loadable(e.files) && Clean(name)
    ensures
      var f := Parse(env);
      var f2, e2 := Extended(f, e, name), e.(files := e.files + [name]);
      && f.lines[e.index] == e.Render(e.files)
      && Parse(f2.Print()) == f2 && FindComposeFile(f2.lines) == Ok([e2])
  {
    hide ReadLine, ReadLines, Parse, Loadable, Clean;
    var f := Parse(env);
    var f2, e2 := Extended(f, e, name), e.(files := e.files + [name]);
    var left := ReadLines(f.lines).value.left;
    EntryHasItsLine(f.lines, left, e);
    RenderIsIdentity(f.lines[e.index], e.index, e);
    LineMore(f.lines[e.index], e.index, e, name);
    assert f.lines[..|f.lines|] == f.lines && f2.lines[..|f.lines|] == f2.lines;
    RewrittenLine(f.lines, left, e, f2.lines[e.index], e2, |f.lines|);
    ParseIsWellFormed(env);
    EntryIsOfItsLine(f.lines[e.index], e.index, Closed, e);
    StaysWellFormed(f, e, name);
    PrintParse(f2);
  }

  lemma StaysWellFormed(f: Env, e: Entry, name: string)
    requires WellFormed(f) && e.index < |f.lines| && f.lines[e.index] == e.Render(e.files) && e.prefix != ""
    requires Clean(name) && Loadable(e.files)
    ensures WellFormed(Extended(f, e, name))
  {
    JoinMore(e.files, ':', name);
    var was, now := e.Render(e.files), e.Render(e.files + [name]);
    assert was in f.lines;
    assert now[0] == was[0];
    assert '\n' !in now by {
      assert '\n' !in e.prefix && '\n' !in e.quote && '\n' !in Join(e.files, ':') && '\n' !in e.suffix by {
        RenderParts(e, '\n');
      }
    }
    var f2 := Extended(f, e, name);
    forall line | line in f2.lines
      ensures '\n' !in line
    {
      assert line == now || line in f.lines;
    }
    assert f2.lines[0] == if e.index == 0 then now else f.lines[0];
  }

  lemma RenderParts(e: Entry, c: char)
    requires c !in e.Render(e.files)
    ensures c !in e.prefix && c !in e.quote && c !in Join(e.files, ':') && c !in e.suffix
  {
    var list := Join(e.files, ':');
    assert e.Render(e.files) == e.prefix + (e.quote + (list + (e.quote + e.suffix)));
  }

  /** Extending an entry and taking the override out of it restores every
      character. */
  lemma AddThenRemove(env: string, baseFiles: seq<string>, o: Override, keepLine: bool)
    requires AddOverrideEntry(env, baseFiles, o).Ok?
    requires
      var found := StrictComposeFile(Parse(env).lines).value;
      found != [] && !o.ListedIn(found[0].files) && Clean(o.NameFor(found[0].files))
    ensures TakeOut(AddOverrideEntry(env, baseFiles, o).value, o, keepLine) == Ok(env)
  {
    hide ReadLines, Parse, Loadable, Clean, StrictComposeFile, FindComposeFile, Override.Is, Override.NameFor, Override.ListedIn;
    var f := Parse(env);
    var e := StrictComposeFile(f.lines).value[0];
    var name := o.NameFor(e.files);
    StrictIsLoadable(f.lines);
    assert StrictComposeFile(f.lines).value == [e];
    ExtendedIsRead(env, e, name);
    WithoutTheNew(e.files, name, o);
    var f2 := Extended(f, e, name);
    assert Env(f2.bom, f2.lines[e.index := e.Render(e.files)]) == f;
    ParsePrint(env);
    LoadableMeans(e.files);
  }

  lemma LoadableMeans(files: seq<string>)
    requires Loadable(files)
    ensures files != []
  {
  }

  // ---- A line of its own ----------------------------------------------------

  predicate AllClean(names: seq<string>) {
    names != [] && forall f | f in names :: Clean(f)
  }

  lemma {:induction false} JoinOfClean(names: seq<string>)
    requires AllClean(names)
    ensures
      var list := Join(names, ':');
      && list != "" && list[0] != '#' && list[0] !in SPACE && list[|list| - 1] !in SPACE
      && forall c | c in list :: c == ':' || (c !in SPECIAL && c !in SPACE)
    decreases |names|
  {
    hide SPACE, SPECIAL, Clean;
    CleanChars(names[0]);
    assert names[0] in names;
    if |names| > 1 {
      assert forall f | f in names[1..] :: f in names;
      JoinOfClean(names[1..]);
    }
  }

  lemma CleanChars(name: string)
    requires Clean(name)
    ensures name != "" && name[0] != '#' && name[0] !in SPACE && name[|name| - 1] !in SPACE
    ensures forall c | c in name :: c !in SPECIAL && c !in SPACE
  {
    assert name[0] in name && name[|name| - 1] in name;
  }

  lemma KeyIsRead(value: string)
    ensures SplitAssignment(COMPOSE_FILE + "=" + value) == KeyValue(COMPOSE_FILE, value)
  {
    var line := COMPOSE_FILE + "=" + value;
    LeadingIs(line, BLANK, 0);
    assert line[0] == 'C' && line[..6] == "COMPOS";
    assert KeyStart(line) == 0;
    IndexAnyIs(line, ASSIGNS, 12);
    assert line[..12] == COMPOSE_FILE && line[13..] == value;
    TrailingIs(COMPOSE_FILE, SPACE, 12);
    LeadingIs(COMPOSE_FILE, SPACE, 0);
  }

  lemma EndsItsLine(head: string, list: string, eol: string)
    requires list != "" && list[|list| - 1] != '\r' && eol in {"", "\r"}
    ensures TrimRight(head + list + eol, RETURN) == head + list
  {
    var line := head + list;
    var raw := line + eol;
    assert raw[|line| - 1] == list[|list| - 1];
    TrailingIs(raw, RETURN, |line|);
    assert raw[..|line|] == line;
  }

  /** A plain line whose list nothing is cut from is read as exactly that list. */
  lemma ListLineIsRead(list: string, eol: string, i: nat)
    requires Solid(list) && list[0] !in BLANK && !HasAny(list, UNSUPPORTED) && list[|list| - 1] != '\r'
    requires eol in {"", "\r"}
    ensures ReadLine(COMPOSE_FILE + "=" + list + eol, i, Closed)
         == Ok(Reading(Closed, [Entry(i, COMPOSE_FILE + "=", "", Split(list, ':'), eol)]))
  {
    hide ReadLine, ParseComposeFileValue, SplitAssignment, Split, HasAny, TrimRight, Solid;
    var head := COMPOSE_FILE + "=";
    KeyIsRead(list);
    SolidMeans(list);
    EndsItsLine(head, list, eol);
    UnquotedIsRead(head, "", list, "");
    assert head + "" == head && "" + list + "" == list && "" + eol == eol;
    EntryLineIsRead(head, list, eol, i, Entry(0, head, "", Split(list, ':'), ""));
  }

  /** A line that sets COMPOSE_FILE is read for its value. */
  lemma EntryLineIsRead(head: string, value: string, eol: string, i: nat, parsed: Entry)
    requires TrimRight(head + value + eol, RETURN) == head + value
    requires SplitAssignment(head + value) == KeyValue(COMPOSE_FILE, value)
    requires ParseComposeFileValue(head, value) == Ok(parsed)
    ensures ReadLine(head + value + eol, i, Closed)
         == Ok(Reading(Closed, [parsed.(index := i, suffix := parsed.suffix + eol)]))
  {
    hide ParseComposeFileValue, SplitAssignment, SkipValue, TrimRight;
    var line := head + value;
    assert line[..|line| - |value|] == head && (line + eol)[|line|..] == eol;
  }

  /** The line an install writes is read as exactly its list. */
  lemma NewLineIsRead(names: seq<string>, eol: string, i: nat)
    requires AllClean(names) && eol in {"", "\r"}
    ensures ReadLine(COMPOSE_FILE + "=" + Join(names, ':') + eol, i, Closed)
         == Ok(Reading(Closed, [Entry(i, COMPOSE_FILE + "=", "", names, eol)]))
  {
    hide ReadLine, Join, Clean, Split;
    JoinOfClean(names);
    ListIsPlain(Join(names, ':'));
    ListLineIsRead(Join(names, ':'), eol, i);
    CleanNames(names);
    SplitJoin(names, ':');
  }

  lemma CleanNames(names: seq<string>)
    requires AllClean(names)
    ensures names != [] && forall f | f in names :: ':' !in f
  {
  }

  lemma ListIsPlain(list: string)
    requires list != "" && list[0] != '#' && list[0] !in SPACE && list[|list| - 1] !in SPACE
    requires forall c | c in list :: c == ':' || (c !in SPECIAL && c !in SPACE)
    ensures Solid(list) && list[0] !in BLANK && Tail("") && !HasAny(list, UNSUPPORTED) && list[|list| - 1] != '\r'
  {
    assert forall i | 0 <= i < |list| :: list[i] in list;
  }

  /** A return added to a line that sets nothing changes nothing. */
  lemma ReturnChangesNothing(raw: string, eol: string, i: nat, left: Open)
    requires eol in {"", "\r"} && ReadLine(raw, i, left).Ok? && ReadLine(raw, i, left).value.found == []
    ensures ReadLine(raw + eol, i, left) == ReadLine(raw, i, left)
  {
    hide ParseComposeFileValue, SplitAssignment, SkipValue, ClosingQuote, AfterQuote;
    assert TrimRight(raw + eol, RETURN) == TrimRight(raw, RETURN) by {
      TrailingIs(raw + eol, RETURN, Trailing(raw, RETURN));
    }
  }

  lemma NothingIsRead(i: nat, left: Open)
    ensures ReadLine("", i, left) == Ok(Reading(left, []))
  {
  }

  lemma ReadOneMore(lines: seq<string>, raw: string)
    ensures ReadLines(lines + [raw]) == ReadNext(ReadLines(lines), raw, |lines|)
  {
    assert (lines + [raw])[..|lines|] == lines;
  }

  /** The lines before the appended one are read as before. */
  lemma AppendKeepsTheRest(f: Env)
    requires f.lines != [] && ReadLines(f.lines) == Ok(Reading(Closed, []))
    ensures
      var last := |f.lines| - 1;
      var kept := if f.lines[last] == "" then f.lines[..last] else f.lines[..last] + [f.lines[last] + f.Ending()];
      ReadLines(kept) == Ok(Reading(Closed, []))
  {
    hide ReadLine;
    var last := |f.lines| - 1;
    var under := f.lines[..last];
    assert f.lines == under + [f.lines[last]];
    ReadOneMore(under, f.lines[last]);
    var left := ReadLines(under).value.left;
    NothingIsRead(last, left);
    ReturnChangesNothing(f.lines[last], f.Ending(), last, left);
    ReadOneMore(under, f.lines[last] + f.Ending());
  }

  function NewEntry(f: Env, names: seq<string>): Entry
    requires f.lines != []
  {
    Entry(if f.lines[|f.lines| - 1] == "" then |f.lines| - 1 else |f.lines|, COMPOSE_FILE + "=", "", names, f.Ending())
  }

  lemma AppendedIsRead(f: Env, names: seq<string>)
    requires WellFormed(f) && ReadLines(f.lines) == Ok(Reading(Closed, [])) && AllClean(names)
    ensures
      var f2 := f.AppendLine(COMPOSE_FILE + "=" + Join(names, ':'));
      Parse(f2.Print()) == f2 && FindComposeFile(f2.lines) == Ok([NewEntry(f, names)])
  {
    hide ReadLine, ReadLines, AllClean, Join, Parse, Env.Ending;
    var line := COMPOSE_FILE + "=" + Join(names, ':');
    var f2, last, eol := f.AppendLine(line), |f.lines| - 1, f.Ending();
    var kept := if f.lines[last] == "" then f.lines[..last] else f.lines[..last] + [f.lines[last] + eol];
    AppendKeepsTheRest(f);
    NewLineIsRead(names, eol, |kept|);
    ReadOneMore(kept, line + eol);
    NothingIsRead(|kept| + 1, Closed);
    ReadOneMore(kept + [line + eol], "");
    assert f2.lines == kept + [line + eol] + [""];
    assert [] + [NewEntry(f, names)] + [] == [NewEntry(f, names)];
    AppendedIsWellFormed(f, names);
    PrintParse(f2);
  }

  lemma AppendedIsWellFormed(f: Env, names: seq<string>)
    requires WellFormed(f) && AllClean(names)
    ensures WellFormed(f.AppendLine(COMPOSE_FILE + "=" + Join(names, ':')))
  {
    hide Join;
    JoinOfClean(names);
    var line := COMPOSE_FILE + "=" + Join(names, ':');
    assert '\n' !in line;
    var f2, last := f.AppendLine(line), |f.lines| - 1;
    forall l | l in f2.lines
      ensures '\n' !in l
    {
      assert f.lines[last] in f.lines;
      assert l in f.lines[..last] || l in [line + f.Ending(), "", f.lines[last] + f.Ending()];
    }
    assert last > 0 ==> f2.lines[0] == f.lines[0];
    assert line[0] == 'C';
  }

  /** Dropping an appended line leaves a file that ended in a line break, or was
      empty, as it was. Any other keeps the line break the append gave it. */
  lemma AppendThenDrop(env: string, baseFiles: seq<string>, o: Override)
    requires ReadLines(Parse(env).lines) == Ok(Reading(Closed, [])) && AllClean(baseFiles + [o.name])
    ensures
      var f := Parse(env);
      var added := AddOverrideEntry(env, baseFiles, o);
      && added.Ok?
      && RemoveComposeFileLine(added.value)
      == Ok(if f.lines[|f.lines| - 1] == "" then env else env + f.Ending() + "\n")
  {
    hide ReadLines, AllClean, Parse, Override.Is, Join, Env.Print, Env.RemoveLine;
    var f, names := Parse(env), baseFiles + [o.name];
    ParseIsWellFormed(env);
    AppendedIsRead(f, names);
    ParsePrint(env);
    RemovingTheLastLine(f, COMPOSE_FILE + "=" + Join(names, ':'));
  }

  /** Without the line appended to it, a file has at most a line ending more. */
  lemma RemovingTheLastLine(f: Env, line: string)
    requires f.lines != []
    ensures
      var f2 := f.AppendLine(line);
      && |f2.lines| >= 2
      && f2.RemoveLine(|f2.lines| - 2).Print()
      == if f.lines[|f.lines| - 1] == "" then f.Print() else f.Print() + f.Ending() + "\n"
  {
    hide Join;
    var last, f2 := |f.lines| - 1, f.AppendLine(line);
    if f.lines[last] == "" {
      assert f2.RemoveLine(|f2.lines| - 2).lines == f.lines;
    } else {
      var kept := f.lines[..last] + [f.lines[last] + f.Ending()];
      assert f2.RemoveLine(|f2.lines| - 2).lines == kept + [""];
      JoinMore(kept, '\n', "");
      assert f.lines == f.lines[..last] + [f.lines[last]];
      JoinLonger(f.lines[..last], f.lines[last], f.Ending());
      PrintsOneBreakMore(f.bom, Join(f.lines, '\n'), f.Ending());
    }
  }

  lemma PrintsOneBreakMore(bom: string, body: string, ending: string)
    ensures bom + ((body + ending) + ['\n'] + "") == (bom + body) + ending + "\n"
  {
  }

  lemma {:induction false} JoinLonger(parts: seq<string>, last: string, more: string)
    ensures Join(parts + [last + more], '\n') == Join(parts + [last], '\n') + more
    decreases |parts|
  {
    if parts != [] {
      JoinMore(parts, '\n', last + more);
      JoinMore(parts, '\n', last);
    }
  }

  lemma CleanIsLoadable(names: seq<string>)
    requires AllClean(names)
    ensures Loadable(names) && exists f | f in names :: Clean(f)
  {
    forall f | f in names
      ensures f != "" && Trim(f, SPACE) == f
    {
      CleanChars(f);
      TrailingIs(f, SPACE, |f|);
      LeadingIs(f, SPACE, 0);
    }
    assert names[0] in names;
  }

  lemma OneMoreIsLoadable(files: seq<string>, name: string)
    requires Loadable(files) && Clean(name)
    ensures Loadable(files + [name]) && name in files + [name]
  {
    CleanIsLoadable([name]);
    assert name in [name];
  }

  /** Adding the override to a file that has been given it changes nothing. */
  lemma AddTwice(env: string, baseFiles: seq<string>, o: Override, baseFiles2: seq<string>)
    requires AddOverrideEntry(env, baseFiles, o).Ok?
    requires
      var found := StrictComposeFile(Parse(env).lines).value;
      if found == [] then ReadLines(Parse(env).lines).value.left == Closed && AllClean(baseFiles + [o.name])
      else o.ListedIn(found[0].files) || Clean(o.NameFor(found[0].files))
    ensures AddOverrideEntry(AddOverrideEntry(env, baseFiles, o).value, baseFiles2, o) == AddOverrideEntry(env, baseFiles, o)
  {
    hide ReadLines, AllClean, Parse, Override.Is, StrictComposeFile, Loadable, Clean, Override.NameFor;
    var f := Parse(env);
    var found := StrictComposeFile(f.lines).value;
    if found == [] {
      var names := baseFiles + [o.name];
      ParseIsWellFormed(env);
      AppendedIsRead(f, names);
      CleanIsLoadable(names);
      LoadableIsStrict(f.AppendLine(NewLine(baseFiles, o)).lines, NewEntry(f, names));
      assert o.name in names;
      NameIs(o);
    } else if !o.ListedIn(found[0].files) {
      var e := found[0];
      var name := o.NameFor(e.files);
      StrictIsLoadable(f.lines);
      assert found == [e];
      ExtendedIsRead(env, e, name);
      OneMoreIsLoadable(e.files, name);
      LoadableIsStrict(Extended(f, e, name).lines, e.(files := e.files + [name]));
    }
  }

  /** What an added override leaves the file listing: the files there were, or those
      discovery would have found, followed by the override -- or what it lists
      already. */
  lemma AddedIsListed(env: string, baseFiles: seq<string>, o: Override) returns (e: Entry)
    requires AddOverrideEntry(env, baseFiles, o).Ok?
    requires
      var found := StrictComposeFile(Parse(env).lines).value;
      if found == [] then ReadLines(Parse(env).lines).value.left == Closed && AllClean(baseFiles + [o.name])
      else o.ListedIn(found[0].files) || Clean(o.NameFor(found[0].files))
    ensures FindComposeFile(Parse(AddOverrideEntry(env, baseFiles, o).value).lines) == Ok([e])
    ensures
      var found := StrictComposeFile(Parse(env).lines).value;
      e.files == if found == [] then baseFiles + [o.name]
                 else if o.ListedIn(found[0].files) then found[0].files
                 else found[0].files + [o.NameFor(found[0].files)]
  {
    hide ReadLines, AllClean, Parse, Override.Is, StrictComposeFile, FindComposeFile, Loadable, Clean, Override.NameFor, Join;
    var f := Parse(env);
    var found := StrictComposeFile(f.lines).value;
    if found == [] {
      var names := baseFiles + [o.name];
      ParseIsWellFormed(env);
      NothingWasRead(f.lines);
      AppendedIsRead(f, names);
      e := NewEntry(f, names);
    } else {
      e := found[0];
      assert found == [e];
      if !o.ListedIn(e.files) {
        StrictIsLoadable(f.lines);
        ExtendedIsRead(env, e, o.NameFor(e.files));
        e := e.(files := e.files + [o.NameFor(e.files)]);
      }
    }
  }

  lemma NothingWasRead(lines: seq<string>)
    requires FindComposeFile(lines) == Ok([]) && ReadLines(lines).value.left == Closed
    ensures ReadLines(lines) == Ok(Reading(Closed, []))
  {
  }

  /** A list of absolute paths stays one, and one with a relative name gets the
      override by name. */
  lemma NamedAlike(files: seq<string>, o: Override)
    requires o.path != "" && o.path[0] == '/'
    ensures (files != [] && forall f | f in files :: f != "" && f[0] == '/') ==>
      forall f | f in files + [o.NameFor(files)] :: f != "" && f[0] == '/'
    ensures (exists f | f in files :: f == "" || f[0] != '/') ==> o.NameFor(files) == o.name
  {
  }

  lemma NameIs(o: Override)
    ensures o.Is(o.name)
  {
  }
}
