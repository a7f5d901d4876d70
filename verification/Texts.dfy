/** The string operations the .env editor is written in. A text is a sequence of
    Unicode characters. */
module Texts {
  /** Leading characters of `s` that are in `cut`. */
  function Leading(s: string, cut: set<char>): (n: nat)
    ensures n <= |s| && (forall i | 0 <= i < n :: s[i] in cut) && (n < |s| ==> s[n] !in cut)
  {
    if s != [] && s[0] in cut then 1 + Leading(s[1..], cut) else 0
  }

  /** How much of `s` is left once trailing characters in `cut` are cut. */
  function Trailing(s: string, cut: set<char>): (n: nat)
    ensures n <= |s| && (forall i | n <= i < |s| :: s[i] in cut) && (n > 0 ==> s[n - 1] !in cut)
  {
    if s != [] && s[|s| - 1] in cut then Trailing(s[..|s| - 1], cut) else |s|
  }

  function TrimLeft(s: string, cut: set<char>): string {
    s[Leading(s, cut)..]
  }

  function TrimRight(s: string, cut: set<char>): string {
    s[..Trailing(s, cut)]
  }

  function Trim(s: string, cut: set<char>): string {
    TrimLeft(TrimRight(s, cut), cut)
  }

  /** Where the first character in `seek` is; |s| when there is none. */
  function IndexAny(s: string, seek: set<char>): (n: nat)
    ensures n <= |s| && (forall i | 0 <= i < n :: s[i] !in seek) && (n < |s| ==> s[n] in seek)
  {
    if s == [] || s[0] in seek then 0 else 1 + IndexAny(s[1..], seek)
  }

  /** The ways these are told apart by their defining property alone. */
  lemma LeadingIs(s: string, cut: set<char>, n: nat)
    requires n <= |s| && (forall i | 0 <= i < n :: s[i] in cut) && (n < |s| ==> s[n] !in cut)
    ensures Leading(s, cut) == n
  {
  }

  lemma TrailingIs(s: string, cut: set<char>, n: nat)
    requires n <= |s| && (forall i | n <= i < |s| :: s[i] in cut) && (n > 0 ==> s[n - 1] !in cut)
    ensures Trailing(s, cut) == n
  {
  }

  lemma IndexAnyIs(s: string, seek: set<char>, n: nat)
    requires n <= |s| && (forall i | 0 <= i < n :: s[i] !in seek) && (n < |s| ==> s[n] in seek)
    ensures IndexAny(s, seek) == n
  {
  }

  // ---- Splitting and joining ------------------------------------------------

  function Split(s: string, sep: char): (parts: seq<string>)
    ensures parts != []
  {
    if s == [] then [""]
    else
      var rest := Split(s[1..], sep);
      if s[0] == sep then [""] + rest else [[s[0]] + rest[0]] + rest[1..]
  }

  function Join(parts: seq<string>, sep: char): string {
    if parts == [] then ""
    else if |parts| == 1 then parts[0]
    else parts[0] + [sep] + Join(parts[1..], sep)
  }

  lemma {:induction false} JoinSplit(s: string, sep: char)
    ensures Join(Split(s, sep), sep) == s
    decreases |s|
  {
    if s != [] {
      JoinSplit(s[1..], sep);
      var rest := Split(s[1..], sep);
      if s[0] == sep {
        assert ([""] + rest)[1..] == rest;
      } else {
        var parts := [[s[0]] + rest[0]] + rest[1..];
        assert parts[1..] == rest[1..];
        if |rest| > 1 {
          assert Join(parts, sep) == [s[0]] + (rest[0] + [sep] + Join(rest[1..], sep));
        }
      }
    }
  }

  lemma {:induction false} SplitPartsAreFree(s: string, sep: char)
    ensures forall part | part in Split(s, sep) :: sep !in part
    decreases |s|
  {
    if s != [] {
      SplitPartsAreFree(s[1..], sep);
      var rest := Split(s[1..], sep);
      assert forall part | part in rest[1..] :: part in rest;
      assert rest[0] in rest;
    }
  }

  lemma {:induction false} SplitOne(part: string, sep: char)
    requires sep !in part
    ensures Split(part, sep) == [part]
    decreases |part|
  {
    if part != [] {
      assert part[0] in part && part == [part[0]] + part[1..];
      SplitOne(part[1..], sep);
    }
  }

  lemma {:induction false} SplitFirst(part: string, sep: char, rest: string)
    requires sep !in part
    ensures Split(part + [sep] + rest, sep) == [part] + Split(rest, sep)
    decreases |part|
  {
    var s := part + [sep] + rest;
    if part == [] {
      assert s[1..] == rest;
    } else {
      assert part[0] in part && part == [part[0]] + part[1..];
      assert s[1..] == part[1..] + [sep] + rest;
      SplitFirst(part[1..], sep, rest);
    }
  }

  lemma {:induction false} SplitJoin(parts: seq<string>, sep: char)
    requires parts != [] && forall part | part in parts :: sep !in part
    ensures Split(Join(parts, sep), sep) == parts
    decreases |parts|
  {
    if |parts| == 1 {
      SplitOne(parts[0], sep);
    } else {
      SplitJoin(parts[1..], sep);
      SplitFirst(parts[0], sep, Join(parts[1..], sep));
    }
  }

  lemma {:induction false} JoinMore(parts: seq<string>, sep: char, last: string)
    requires parts != []
    ensures Join(parts + [last], sep) == Join(parts, sep) + [sep] + last
    decreases |parts|
  {
    if |parts| == 1 {
      assert (parts + [last])[1..] == [last];
    } else {
      JoinMore(parts[1..], sep, last);
      assert (parts + [last])[1..] == parts[1..] + [last];
    }
  }
}
