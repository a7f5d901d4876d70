/** Adopting a saved snapshot at boot although writes arrived meanwhile: the
    buffer that accounts for those writes, and the verdict on their counters. */
module BootGap {
  import opened GraphStore
  import opened Engines

  const MAX_ENTRIES := 4096
  const MAX_KEYS := 262144

  /** One buffered write; None marks a counter that left nothing to replay. */
  datatype Entry = Entry(counter: nat, keys: Option<set<Key>>)

  /** Why a buffer is unusable. */
  datatype Poisoning = Clean | NilWriteScope | FallbackWrite | UnbumpedChanges | TooManyWrites | TooManyKeys

  // ---- What the buffer is told ----------------------------------------------

  /** One call the armed buffer received: an applied scope (perhaps nil), or an
      abandoned one. */
  datatype Observation =
    | SawNil
    | SawApplied(keys: set<Key>, counter: Option<nat>)
    | SawAbandoned(counter: Option<nat>)

  /** The entry a faithful account of an observation needs. */
  function EntryFor(seen: Observation): seq<Entry> {
    match seen
    case SawNil => []
    case SawApplied(keys, counter) => if counter.None? then [] else [Entry(counter.value, if keys == {} then None else Some(keys))]
    case SawAbandoned(counter) => if counter.None? then [] else [Entry(counter.value, None)]
  }

  /** Every bumped scope observed, in order. */
  function Recorded(history: seq<Observation>): seq<Entry> {
    if history == [] then []
    else Recorded(history[..|history| - 1]) + EntryFor(history[|history| - 1])
  }

  function KeysIn(entries: seq<Entry>): nat {
    if entries == [] then 0
    else
      var last := entries[|entries| - 1];
      KeysIn(entries[..|entries| - 1]) + if last.keys.Some? then |last.keys.value| else 0
  }

  /** Why an observation cannot be accounted for, after `entries` were. */
  function Doubt(entries: seq<Entry>, seen: Observation): Poisoning {
    if seen.SawNil? then NilWriteScope
    else if seen.SawApplied? && Fallback in seen.keys then FallbackWrite
    else if seen.SawApplied? && seen.counter.None? && seen.keys != {} then UnbumpedChanges
    else if EntryFor(seen) == [] then Clean
    else if |entries| >= MAX_ENTRIES then TooManyWrites
    else if KeysIn(entries + EntryFor(seen)) > MAX_KEYS then TooManyKeys
    else Clean
  }

  /** The first doubt of a history; empty when every write is accounted for. */
  function FirstDoubt(history: seq<Observation>): Poisoning {
    if history == [] then Clean
    else
      var before := history[..|history| - 1];
      if FirstDoubt(before) != Clean then FirstDoubt(before) else Doubt(Recorded(before), history[|history| - 1])
  }

  lemma ObservedMore(history: seq<Observation>, seen: Observation)
    ensures Recorded(history + [seen]) == Recorded(history) + EntryFor(seen)
    ensures FirstDoubt(history + [seen]) ==
            if FirstDoubt(history) != Clean then FirstDoubt(history) else Doubt(Recorded(history), seen)
  {
    assert (history + [seen])[..|history|] == history;
  }

  lemma KeysInMore(entries: seq<Entry>, entry: Entry)
    ensures KeysIn(entries + [entry]) == KeysIn(entries) + if entry.keys.Some? then |entry.keys.value| else 0
  {
    assert (entries + [entry])[..|entries|] == entries;
  }

  /** A doubt is permanent and stays the first one. */
  lemma {:induction false} DoubtIsPermanent(history: seq<Observation>, more: seq<Observation>)
    requires FirstDoubt(history) != Clean
    ensures FirstDoubt(history + more) == FirstDoubt(history)
    decreases |more|
  {
    if more == [] {
      assert history + more == history;
    } else {
      var before := more[..|more| - 1];
      DoubtIsPermanent(history, before);
      ObservedMore(history + before, more[|more| - 1]);
      assert history + before + [more[|more| - 1]] == history + more;
    }
  }

  /** Without a doubt nothing is missing: each observation that bumped or changed
      anything has its own entry, carrying every key it named. */
  lemma {:induction false} NoDoubtMeansAccounted(history: seq<Observation>, i: nat)
    requires FirstDoubt(history) == Clean && i < |history|
    ensures !history[i].SawNil?
    ensures history[i].SawApplied? ==> Fallback !in history[i].keys
    ensures history[i].SawApplied? && history[i].keys != {} ==>
              history[i].counter.Some? && Entry(history[i].counter.value, Some(history[i].keys)) in Recorded(history)
    ensures history[i].SawAbandoned? && history[i].counter.Some? ==>
              exists entry | entry in Recorded(history) :: entry.counter == history[i].counter.value
    decreases |history|
  {
    hide KeysIn;
    var before := history[..|history| - 1];
    if i < |before| {
      NoDoubtMeansAccounted(before, i);
      assert history[i] == before[i];
    } else {
      var entries := EntryFor(history[i]);
      if entries != [] {
        assert entries[0] in Recorded(before) + entries;
      }
    }
  }

  /** An observation that names what it changed, by a counter it bumped. */
  predicate Accountable(seen: Observation) {
    match seen
    case SawNil => false
    case SawApplied(keys, counter) => Fallback !in keys && (counter.Some? || keys == {})
    case SawAbandoned(_) => true
  }

  predicate WithinCaps(entries: seq<Entry>) {
    |entries| <= MAX_ENTRIES && KeysIn(entries) <= MAX_KEYS
  }

  /** One more observation is doubted exactly when it is unaccountable or its entry
      no longer fits. */
  lemma OneMoreDoubt(entries: seq<Entry>, seen: Observation)
    ensures WithinCaps(entries) ==>
              (Doubt(entries, seen) == Clean <==> Accountable(seen) && WithinCaps(entries + EntryFor(seen)))
    ensures WithinCaps(entries + EntryFor(seen)) ==> WithinCaps(entries)
  {
    hide KeysIn;
    var more := EntryFor(seen);
    if more == [] {
      assert entries + more == entries;
    } else {
      assert more == [more[0]];
      KeysInMore(entries, more[0]);
    }
  }

  /** The buffer is doubted only for cause: a history has no doubt exactly when each
      observation is accountable and together they fit the caps. */
  lemma {:induction false} DoubtIsForCause(history: seq<Observation>)
    ensures FirstDoubt(history) == Clean <==>
      (forall i | 0 <= i < |history| :: Accountable(history[i])) && WithinCaps(Recorded(history))
    decreases |history|
  {
    hide KeysIn, WithinCaps, Doubt, Accountable, EntryFor;
    if history == [] {
      NoKeys();
    } else {
      var n := |history| - 1;
      var before := history[..n];
      DoubtIsForCause(before);
      assert forall i | 0 <= i < n :: before[i] == history[i];
      OneMoreDoubt(Recorded(before), history[n]);
    }
  }

  lemma NoKeys()
    ensures WithinCaps([])
  {
  }

  class Buffer {
    var active: bool
    var entries: seq<Entry>
    var keyCount: nat
    var poisoned: Poisoning
    ghost var seen: seq<Observation>

    constructor ()
      ensures Valid() && !active && entries == [] && poisoned == Clean && seen == []
    {
      active, entries, keyCount, poisoned := false, [], 0, Clean;
      seen := [];
    }

    /** The caps hold at every moment. While it is armed, the buffer is poisoned
        with the first doubt of what it saw, or holds exactly the bumped scopes. */
    ghost predicate Valid()
      reads this
    {
      && |entries| <= MAX_ENTRIES && keyCount <= MAX_KEYS && keyCount == KeysIn(entries)
      && (active ==> poisoned == FirstDoubt(seen))
      && (active && poisoned == Clean ==> entries == Recorded(seen))
    }

    method Activate()
      requires Valid() && !active && entries == [] && poisoned == Clean && seen == []
      modifies this`active
      ensures Valid() && active
    {
      active := true;
    }

    method Deactivate()
      requires Valid()
      modifies this`active, this`entries, this`keyCount
      ensures Valid() && !active && entries == []
    {
      active := false;
      entries, keyCount := [], 0;
    }

    method Poison(reason: Poisoning)
      modifies this`poisoned
      ensures poisoned == if old(poisoned) == Clean then reason else old(poisoned)
    {
      if poisoned == Clean {
        poisoned := reason;
      }
    }

    method Append(counter: nat, keys: Option<set<Key>>)
      requires |entries| <= MAX_ENTRIES && keyCount <= MAX_KEYS && keyCount == KeysIn(entries)
      modifies this`entries, this`keyCount, this`poisoned
      ensures |entries| <= MAX_ENTRIES && keyCount <= MAX_KEYS && keyCount == KeysIn(entries)
      ensures
        var entry := Entry(counter, keys);
        if |old(entries)| >= MAX_ENTRIES then
          entries == old(entries) && poisoned == (if old(poisoned) == Clean then TooManyWrites else old(poisoned))
        else if KeysIn(old(entries) + [entry]) > MAX_KEYS then
          entries == old(entries) && poisoned == (if old(poisoned) == Clean then TooManyKeys else old(poisoned))
        else
          entries == old(entries) + [entry] && poisoned == old(poisoned)
    {
      KeysInMore(entries, Entry(counter, keys));
      if |entries| >= MAX_ENTRIES {
        Poison(TooManyWrites);
        return;
      }
      if keys.Some? {
        var next := keyCount + |keys.value|;
        if next > MAX_KEYS {
          Poison(TooManyKeys);
          return;
        }
        keyCount := next;
      }
      entries := entries + [Entry(counter, keys)];
    }

    /** Records one committed write's scope, exactly as Apply saw it. */
    method Observe(scope: WriteScope?)
      requires Valid()
      modifies this`entries, this`keyCount, this`poisoned, this`seen
      ensures Valid() && active == old(active)
      ensures seen == if active then old(seen) + [if scope == null then SawNil else SawApplied(scope.keys, scope.Watermark())]
                      else old(seen)
      ensures !active ==> entries == old(entries) && poisoned == old(poisoned)
    {
      hide Recorded, KeysIn, FirstDoubt;
      if !active {
        return;
      }
      ghost var call := if scope == null then SawNil else SawApplied(scope.keys, scope.Watermark());
      ObservedMore(seen, call);
      seen := seen + [call];
      if scope == null {
        Poison(NilWriteScope);
        return;
      }
      if Fallback in scope.keys {
        Poison(FallbackWrite);
        return;
      }
      if !scope.watermarkBumped {
        if scope.keys != {} {
          Poison(UnbumpedChanges);
        }
        return;
      }
      Append(scope.watermark, if scope.keys == {} then None else Some(scope.keys));
    }

    /** Records the counter of a bumped write known to have left nothing. */
    method ObserveAbandoned(scope: WriteScope?)
      requires Valid()
      modifies this`entries, this`keyCount, this`poisoned, this`seen
      ensures Valid() && active == old(active)
      ensures seen == if active && scope != null then old(seen) + [SawAbandoned(scope.Watermark())] else old(seen)
      ensures !active ==> entries == old(entries) && poisoned == old(poisoned)
    {
      hide Recorded, KeysIn, FirstDoubt;
      if !active || scope == null {
        return;
      }
      ObservedMore(seen, SawAbandoned(scope.Watermark()));
      seen := seen + [SawAbandoned(scope.Watermark())];
      if !scope.watermarkBumped {
        return;
      }
      Append(scope.watermark, None);
    }

    /** Consumes the buffer for the adoption decision. */
    method Take() returns (taken: seq<Entry>, reason: Poisoning)
      requires Valid()
      modifies this`active, this`entries, this`keyCount
      ensures Valid() && !active && entries == []
      ensures old(active) ==> reason == FirstDoubt(seen)
      ensures old(active) && reason == Clean ==> taken == Recorded(seen)
    {
      active := false;
      taken, reason := entries, poisoned;
      entries, keyCount := [], 0;
    }

    /** Reads the buffer without consuming it. */
    method Peek() returns (held: seq<Entry>, reason: Poisoning)
      requires Valid()
      ensures active ==> reason == FirstDoubt(seen)
      ensures active && reason == Clean ==> held == Recorded(seen)
    {
      held, reason := entries, poisoned;
    }
  }

  // ---- The verdict on the counters ------------------------------------------

  const TWO_TO_64 := 0x1_0000_0000_0000_0000

  /** The counters PostgreSQL's watermark can hold. */
  type Uint64 = c: nat | c < TWO_TO_64

  /** The source's addition: unsigned, wrapping. */
  function Successor(c: Uint64): Uint64 {
    (c + 1) % TWO_TO_64
  }

  datatype Verdict = Covered | Hole | Contradiction

  /** No write this boot can still observe heals these. */
  ghost predicate Contradicts(file: Uint64, target: Uint64, counters: multiset<Uint64>) {
    target < file || exists c: Uint64 :: counters[c] > 1 || (counters[c] > 0 && c <= file)
  }

  /** The counters up to the target are those the file is missing, each once. */
  ghost predicate Covers(file: Uint64, target: Uint64, counters: multiset<Uint64>) {
    forall c: Uint64 | c <= target :: counters[c] == if file < c then 1 else 0
  }

  ghost function Judge(file: Uint64, target: Uint64, counters: multiset<Uint64>): Verdict {
    if Contradicts(file, target, counters) then Contradiction
    else if Covers(file, target, counters) then Covered
    else Hole
  }

  /** A contradiction never heals, and neither it nor a cover depends on counters
      past the target being seen or not, as long as those are distinct. */
  lemma ContradictionStays(file: Uint64, target: Uint64, counters: multiset<Uint64>, more: multiset<Uint64>)
    ensures Judge(file, target, counters) == Contradiction ==> Judge(file, target, counters + more) == Contradiction
    ensures Judge(file, target, counters + more) == Covered ==> Judge(file, target, counters) != Contradiction
  {
    if Judge(file, target, counters) == Contradiction && target >= file {
      var c: Uint64 :| counters[c] > 1 || (counters[c] > 0 && c <= file);
      assert (counters + more)[c] > 1 || ((counters + more)[c] > 0 && c <= file);
    }
  }

  /** The counters a cover still lacks. */
  function Missing(file: Uint64, target: Uint64, counters: multiset<Uint64>): multiset<Uint64> {
    multiset(set c: Uint64 | file < c <= target && counters[c] == 0)
  }

  /** What the verdicts mean for what may yet be observed: a contradiction is what no
      further counters can turn into a cover, and a hole is what some can. */
  lemma OnlyContradictionsAreFinal(file: Uint64, target: Uint64, counters: multiset<Uint64>)
    ensures Judge(file, target, counters) == Contradiction <==>
      forall more :: Judge(file, target, counters + more) != Covered
    ensures Judge(file, target, counters) == Covered ==> file <= target && Missing(file, target, counters) == multiset{}
  {
    if Judge(file, target, counters) == Contradiction {
      forall more
        ensures Judge(file, target, counters + more) != Covered
      {
        ContradictionStays(file, target, counters, more);
      }
    } else {
      var more := Missing(file, target, counters);
      var all := counters + more;
      forall c: Uint64
        ensures all[c] <= 1 && (all[c] > 0 ==> c > file) && (c <= target ==> all[c] == if file < c then 1 else 0)
      {
        assert counters[c] <= 1 && (counters[c] > 0 ==> c > file);
      }
      assert Judge(file, target, all) == Covered;
    }
  }

  /** A cover can only turn into a contradiction: the writes still to come have
      counters past the target, or repeat one. */
  lemma CoverIsKept(file: Uint64, target: Uint64, counters: multiset<Uint64>, more: multiset<Uint64>)
    requires Judge(file, target, counters) == Covered
    ensures Judge(file, target, counters + more) != Hole
  {
    if !Contradicts(file, target, counters + more) {
      forall c: Uint64 | c <= target
        ensures (counters + more)[c] == if file < c then 1 else 0
      {
        assert counters[c] == if file < c then 1 else 0;
        assert !((counters + more)[c] > 1 || ((counters + more)[c] > 0 && c <= file));
      }
    }
  }

  predicate Ordered(s: seq<Uint64>) {
    forall i, j | 0 <= i < j < |s| :: s[i] <= s[j]
  }

  function Insert(c: Uint64, s: seq<Uint64>): seq<Uint64> {
    if s == [] || c <= s[0] then [c] + s else [s[0]] + Insert(c, s[1..])
  }

  function Sorted(s: seq<Uint64>): seq<Uint64> {
    if s == [] then [] else Insert(s[0], Sorted(s[1..]))
  }

  lemma {:induction false} InsertAdds(c: Uint64, s: seq<Uint64>)
    ensures multiset(Insert(c, s)) == multiset{c} + multiset(s)
    decreases |s|
  {
    if s != [] && c > s[0] {
      InsertAdds(c, s[1..]);
      assert s == [s[0]] + s[1..];
    }
  }

  lemma {:induction false} InsertStaysAbove(floor: Uint64, c: Uint64, s: seq<Uint64>)
    requires floor <= c && forall j | 0 <= j < |s| :: floor <= s[j]
    ensures forall j | 0 <= j < |Insert(c, s)| :: floor <= Insert(c, s)[j]
    decreases |s|
  {
    if s != [] {
      InsertStaysAbove(floor, c, s[1..]);
    }
  }

  lemma {:induction false} InsertKeepsOrder(c: Uint64, s: seq<Uint64>)
    requires Ordered(s)
    ensures Ordered(Insert(c, s))
    decreases |s|
  {
    if s != [] && c > s[0] {
      InsertKeepsOrder(c, s[1..]);
      InsertStaysAbove(s[0], c, s[1..]);
    }
  }

  lemma {:induction false} SortedIsASort(s: seq<Uint64>)
    ensures Ordered(Sorted(s)) && multiset(Sorted(s)) == multiset(s)
    decreases |s|
  {
    if s != [] {
      SortedIsASort(s[1..]);
      InsertKeepsOrder(s[0], Sorted(s[1..]));
      InsertAdds(s[0], Sorted(s[1..]));
      assert s == [s[0]] + s[1..];
    }
  }

  /** The standard library's sort. */
  method SortInPlace(counters: array<Uint64>)
    modifies counters
    ensures Ordered(counters[..]) && multiset(counters[..]) == multiset(old(counters[..]))
  {
    var sorted := Sorted(counters[..]);
    SortedIsASort(counters[..]);
    assert |sorted| == counters.Length by {
      assert |multiset(sorted)| == |multiset(counters[..])|;
    }
    forall i | 0 <= i < counters.Length {
      counters[i] := sorted[i];
    }
    assert counters[..] == sorted;
  }

  /** What the scan has established about the counters before index `i`: they are
      distinct and past the file, `last` is the highest up to the target, and
      `hole` says whether one below it is missing. */
  ghost predicate Scanned(s: seq<Uint64>, i: nat, file: Uint64, target: Uint64, last: Uint64, hole: bool)
    requires i <= |s|
  {
    && file <= last <= target
    && (forall j, k | 0 <= j < k < i :: s[j] < s[k])
    && (forall j | 0 <= j < i :: file < s[j] && (s[j] <= target ==> s[j] <= last))
    && (last == file || last in s[..i])
    && (hole <==> exists c: Uint64 :: file < c < last && c !in s[..i])
  }

  lemma ScanNext(s: seq<Uint64>, i: nat, file: Uint64, target: Uint64, last: Uint64, hole: bool)
    requires Ordered(s) && i < |s| && Scanned(s, i, file, target, last, hole)
    requires file < s[i] && (i > 0 ==> s[i] != s[i - 1])
    ensures s[i] > target ==> Scanned(s, i + 1, file, target, last, hole)
    ensures s[i] <= target ==> last < s[i] && Scanned(s, i + 1, file, target, s[i], hole || s[i] != Successor(last))
  {
    assert s[..i + 1] == s[..i] + [s[i]];
    forall j | 0 <= j < i
      ensures s[j] < s[i]
    {
      assert s[j] <= s[i - 1] <= s[i];
    }
    if s[i] <= target {
      assert last < s[i] by {
        if last != file {
          assert last in s[..i];
        }
      }
      HoleGrows(s[..i], s[i], file, last, hole);
    } else {
      assert forall m: Uint64 | m < last :: m in s[..i] <==> m in s[..i + 1];
    }
  }

  /** Adding a counter past `last` leaves a hole where there was one, or makes
      one unless it is the very next. */
  lemma HoleGrows(before: seq<Uint64>, c: Uint64, file: Uint64, last: Uint64, hole: bool)
    requires file <= last < c && (last == file || last in before)
    requires forall b | b in before :: b <= last
    requires hole <==> exists m: Uint64 :: file < m < last && m !in before
    ensures (hole || c != Successor(last)) <==> exists m: Uint64 :: file < m < c && m !in before + [c]
  {
    if hole {
      var m: Uint64 :| file < m < last && m !in before;
      assert file < m < c && m !in before + [c];
    } else if c != last + 1 {
      var m: Uint64 := last + 1;
      assert file < m < c && m !in before + [c];
    }
  }

  lemma CountsInOrder(s: seq<Uint64>, c: Uint64)
    requires forall j, k | 0 <= j < k < |s| :: s[j] < s[k]
    ensures multiset(s)[c] == if c in s then 1 else 0
    decreases |s|
  {
    if s != [] {
      var before := s[..|s| - 1];
      assert s == before + [s[|s| - 1]];
      CountsInOrder(before, c);
    }
  }

  /** The scan's answer is the verdict, wraparound included. */
  lemma ScanIsExact(s: seq<Uint64>, file: Uint64, target: Uint64, last: Uint64, hole: bool)
    requires Scanned(s, |s|, file, target, last, hole)
    ensures Judge(file, target, multiset(s)) == if hole || Successor(last) != Successor(target) then Hole else Covered
  {
    assert s[..|s|] == s;
    forall c: Uint64
      ensures multiset(s)[c] == if c in s then 1 else 0
    {
      CountsInOrder(s, c);
    }
    assert !Contradicts(file, target, multiset(s));
    if hole {
      var c: Uint64 :| file < c < last && c !in s;
      assert multiset(s)[c] != 1;
    } else if last != target {
      assert target !in s;
      assert multiset(s)[target] != 1;
    }
  }

  /** Whether a file stamped `file` may be adopted at the frozen counter `target`,
      given the counters accounted for so far. */
  method BootGapCoveredAt(file: Uint64, target: Uint64, counters: array<Uint64>) returns (verdict: Verdict)
    modifies counters
    ensures verdict == Judge(file, target, multiset(old(counters[..])))
  {
    if target < file {
      return Contradiction;
    }
    SortInPlace(counters);
    ghost var s := counters[..];
    ghost var last: Uint64 := file;
    var next: Uint64, hole := Successor(file), false;
    for i := 0 to counters.Length
      invariant counters[..] == s && Ordered(s) && multiset(s) == multiset(old(counters[..]))
      invariant Scanned(s, i, file, target, last, hole) && next == Successor(last)
    {
      var c := counters[i];
      if i > 0 && c == counters[i - 1] {
        RepeatCounts(s, i);
        return Contradiction;
      }
      if c <= file {
        assert c in multiset(s);
        return Contradiction;
      }
      ScanNext(s, i, file, target, last, hole);
      if c > target {
      } else if c != next {
        hole := true;
        next := Successor(c);
        last := c;
      } else {
        next := Successor(next);
        last := c;
      }
    }
    ScanIsExact(s, file, target, last, hole);
    verdict := if hole || next != Successor(target) then Hole else Covered;
  }

  lemma RepeatCounts(s: seq<Uint64>, i: nat)
    requires 0 < i < |s| && s[i] == s[i - 1]
    ensures multiset(s)[s[i]] > 1
  {
    assert s == s[..i - 1] + [s[i - 1], s[i]] + s[i + 1..];
  }

  // ---- The adoption ---------------------------------------------------------

  function CounterOf(seen: Observation): Option<nat> {
    if seen.SawNil? then None else seen.counter
  }

  lemma {:induction false} EntryWasObserved(history: seq<Observation>, entry: Entry) returns (i: nat)
    requires entry in Recorded(history)
    ensures i < |history| && EntryFor(history[i]) == [entry]
    decreases |history|
  {
    var before := history[..|history| - 1];
    if entry in Recorded(before) {
      i := EntryWasObserved(before, entry);
    } else {
      i := |history| - 1;
    }
  }

  function CountersOf(entries: seq<Entry>): seq<Uint64>
    requires forall entry | entry in entries :: entry.counter < TWO_TO_64
  {
    seq(|entries|, i requires 0 <= i < |entries| => assert entries[i] in entries; entries[i].counter)
  }

  /** What a cover of an undoubted history means: every counter the file is
      missing up to the target belongs to a write this boot observed. */
  lemma CoverMeansAllObserved(history: seq<Observation>, file: Uint64, target: Uint64, c: Uint64) returns (i: nat)
    requires forall entry | entry in Recorded(history) :: entry.counter < TWO_TO_64
    requires Judge(file, target, multiset(CountersOf(Recorded(history)))) == Covered && file < c <= target
    ensures i < |history| && CounterOf(history[i]) == Some(c)
  {
    var counters := CountersOf(Recorded(history));
    assert multiset(counters)[c] == 1;
    assert c in counters;
    var k :| 0 <= k < |counters| && counters[k] == c;
    i := EntryWasObserved(history, Recorded(history)[k]);
  }

  /** One attempt to adopt the file: judge what the buffer holds, and take it once
      covered. Abandoned writes may be observed between the two. */
  method AdoptAttempt(b: Buffer, file: Uint64, target: Uint64, between: seq<WriteScope>)
    returns (verdict: Option<Verdict>, replay: seq<Entry>)
    requires b.Valid() && b.active
    requires forall entry | entry in b.entries :: entry.counter < TWO_TO_64
    modifies b
    ensures b.Valid() && old(b.seen) <= b.seen
    ensures FirstDoubt(old(b.seen)) != Clean ==> verdict == None
    ensures FirstDoubt(old(b.seen)) == Clean ==>
              && (forall entry | entry in Recorded(old(b.seen)) :: entry.counter < TWO_TO_64)
              && var judged := Judge(file, target, multiset(CountersOf(Recorded(old(b.seen)))));
              if judged.Covered? && FirstDoubt(b.seen) != Clean then verdict == None else verdict == Some(judged)
    ensures verdict == Some(Covered) ==> replay == Recorded(b.seen) && !b.active
  {
    replay := [];
    var held, reason := b.Peek();
    if reason != Clean {
      return None, [];
    }
    var counters := CountersOf(b.entries);
    var owned := new Uint64[|counters|](i requires 0 <= i < |counters| => counters[i]);
    assert owned[..] == counters;
    var judged := BootGapCoveredAt(file, target, owned);
    if !judged.Covered? {
      return Some(judged), [];
    }
    for i := 0 to |between|
      invariant b.Valid() && b.active && old(b.seen) <= b.seen
    {
      b.ObserveAbandoned(between[i]);
    }
    replay, reason := b.Take();
    verdict := if reason != Clean then None else Some(Covered);
  }
}
