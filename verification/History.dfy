/** Reading the history of one driver call: which durable rows no Apply has
    covered yet, and which eager bumps nothing has resolved yet. */
module History {
  import opened GraphStore
  import opened Engines

  /** Some entry leads to the row. */
  predicate Names(keys: set<Key>, row: Row) {
    exists key | key in keys :: AnswersTo(row, key)
  }

  predicate NamesAll(keys: set<Key>, rows: set<Row>) {
    forall row | row in rows :: Names(keys, row)
  }

  /** A change log covers rows when it names every one of them, or gives up naming
      anything. */
  predicate Covers(keys: set<Key>, rows: set<Row>) {
    Fallback in keys || NamesAll(keys, rows)
  }

  /** More entries cover more, and what each of two logs covers both together do. */
  lemma CoversMore(keys: set<Key>, names: set<Key>, rows: set<Row>, more: set<Row>)
    requires Covers(keys, rows) && NamesAll(names, more)
    ensures Covers(keys + names, rows + more)
  {
  }

  lemma CoversFewer(keys: set<Key>, rows: set<Row>, fewer: set<Row>)
    requires Covers(keys, rows) && fewer <= rows
    ensures Covers(keys, fewer)
  {
  }

  lemma CoversLonger(keys: set<Key>, rows: set<Row>, longer: set<Key>)
    requires Covers(keys, rows) && keys <= longer
    ensures Covers(longer, rows)
  {
  }

  function OwedAfter(owed: set<Row>, event: Event): set<Row> {
    match event
    case Durable(rows) => owed + rows
    case Applied(keys, _) => if Fallback in keys then {} else set row | row in owed && !Names(keys, row)
    case _ => owed
  }

  /** The durable rows no later Apply has covered. */
  function Owed(log: seq<Event>): set<Row> {
    if log == [] then {} else OwedAfter(Owed(log[..|log| - 1]), log[|log| - 1])
  }

  function Resolves(event: Event): Option<nat> {
    match event
    case Applied(_, counter) => counter
    case Abandoned(counter) => counter
    case _ => None
  }

  function OpenAfter(open: multiset<nat>, event: Event): multiset<nat> {
    match event
    case Bumped(counter) => open + multiset{counter}
    case _ => if Resolves(event).Some? then open - multiset{Resolves(event).value} else open
  }

  /** The bumps made and not yet resolved. */
  function Open(log: seq<Event>): multiset<nat> {
    if log == [] then multiset{} else OpenAfter(Open(log[..|log| - 1]), log[|log| - 1])
  }

  /** One event settles what it may: it resolves only a bump that is open, and
      it abandons a scope only while nothing durable is owed. */
  predicate SettlesWell(before: seq<Event>, event: Event) {
    && (Resolves(event).Some? ==> Resolves(event).value in Open(before))
    && (event.Abandoned? ==> Owed(before) == {})
  }

  predicate WellSettled(log: seq<Event>) {
    log == [] || (WellSettled(log[..|log| - 1]) && SettlesWell(log[..|log| - 1], log[|log| - 1]))
  }

  lemma Append(log: seq<Event>, event: Event)
    ensures Owed(log + [event]) == OwedAfter(Owed(log), event)
    ensures Open(log + [event]) == OpenAfter(Open(log), event)
    ensures WellSettled(log + [event]) <==> WellSettled(log) && SettlesWell(log, event)
  {
    assert (log + [event])[..|log|] == log;
  }

  lemma {:induction false} OwedUntilNamed(log: seq<Event>, i: nat, row: Row)
    requires i < |log| && log[i].Durable? && row in log[i].rows
    requires forall j | i < j < |log| && log[j].Applied? :: !Covers(log[j].keys, {row})
    ensures row in Owed(log)
    decreases |log|
  {
    var before := log[..|log| - 1];
    if i < |before| {
      OwedUntilNamed(before, i, row);
      assert before[i] == log[i];
    }
  }

  /** What an empty debt means: every durable row was followed by an Apply of a
      change log that names it, or of one that forces a rebuild. */
  lemma NothingOwedMeansNothingLost(log: seq<Event>, i: nat, row: Row)
    requires Owed(log) == {} && i < |log| && log[i].Durable? && row in log[i].rows
    ensures exists j | i < j < |log| :: log[j].Applied? && Covers(log[j].keys, {row})
  {
    if forall j | i < j < |log| && log[j].Applied? :: !Covers(log[j].keys, {row}) {
      OwedUntilNamed(log, i, row);
    }
  }

  function Count(log: seq<Event>, counter: nat, bumps: bool): nat {
    if log == [] then 0
    else
      var last := log[|log| - 1];
      Count(log[..|log| - 1], counter, bumps) +
      if (bumps && last == Bumped(counter)) || (!bumps && Resolves(last) == Some(counter)) then 1 else 0
  }

  lemma {:induction false} OpenCounts(log: seq<Event>, counter: nat)
    requires WellSettled(log)
    ensures Count(log, counter, true) == Count(log, counter, false) + Open(log)[counter]
    decreases |log|
  {
    if log != [] {
      OpenCounts(log[..|log| - 1], counter);
    }
  }

  /** What no open bump means: every counter was resolved exactly as often as it
      was bumped. */
  lemma NothingOpenMeansSettledOnce(log: seq<Event>, counter: nat)
    requires WellSettled(log) && Open(log) == multiset{}
    ensures Count(log, counter, true) == Count(log, counter, false)
  {
    OpenCounts(log, counter);
  }
}
