/** What the write wrappers recognize in the criteria of a query, and why what
    they then record names exactly what PostgreSQL deletes. */
module Recognizers {
  import opened GraphStore
  import opened History

  /** A query criteria, as far as the recognizers tell shapes apart. */
  datatype Criteria =
    | KindMatcher(symbol: string, kinds: seq<Kind>)
    | Conjunction(parts: seq<Criteria>)
    | InIds(symbol: string, ids: seq<nat>)
    | UpdatingClause
    | UpdatingClauses(count: nat)
    | Nested(members: seq<Criteria>)
    | Unrecognized(text: string)

  const NODE_SYMBOL := "n"
  const EDGE_SYMBOL := "r"

  /** The kinds of `a` that also appear in `b`, in a's order. */
  function IntersectKinds(a: seq<Kind>, b: seq<Kind>): seq<Kind> {
    if a == [] then []
    else (if a[0] in b then [a[0]] else []) + IntersectKinds(a[1..], b)
  }

  function MatcherKinds(part: Criteria): Option<seq<Kind>> {
    if part.KindMatcher? && part.symbol == EDGE_SYMBOL then Some(part.kinds) else None
  }

  /** The kinds every part of a conjunction lists; None when some part is not a
      bare relationship kind matcher. */
  function CommonKinds(parts: seq<Criteria>): Option<seq<Kind>>
    requires parts != []
    decreases |parts|
  {
    var last := MatcherKinds(parts[|parts| - 1]);
    if |parts| == 1 then last
    else
      var before := CommonKinds(parts[..|parts| - 1]);
      if before.None? || last.None? then None else Some(IntersectKinds(before.value, last.value))
  }

  function EdgeKindsFromCriteria(criteria: Criteria): Option<seq<Kind>> {
    match criteria
    case KindMatcher(_, _) => MatcherKinds(criteria)
    case Conjunction(parts) => if parts == [] then None else CommonKinds(parts)
    case _ => None
  }

  /** What PostgreSQL selects: an edge matcher takes the edges whose kind is in
      its list, ANDed parts narrow, and of any other part nothing is known. */
  predicate Selects(criteria: Criteria, kind: Kind, other: Criteria -> bool) {
    match criteria
    case KindMatcher(symbol, kinds) => if symbol == EDGE_SYMBOL then kind in kinds else other(criteria)
    case Conjunction(parts) => forall i | 0 <= i < |parts| :: Selects(parts[i], kind, other)
    case _ => other(criteria)
  }

  lemma {:induction false} IntersectionIsExact(a: seq<Kind>, b: seq<Kind>, kind: Kind)
    ensures kind in IntersectKinds(a, b) <==> kind in a && kind in b
    decreases |a|
  {
    if a != [] {
      IntersectionIsExact(a[1..], b, kind);
    }
  }

  lemma {:induction false} CommonKindsAreExact(parts: seq<Criteria>, kind: Kind, other: Criteria -> bool)
    requires parts != [] && CommonKinds(parts).Some?
    ensures kind in CommonKinds(parts).value <==> forall i | 0 <= i < |parts| :: Selects(parts[i], kind, other)
    decreases |parts|
  {
    var n := |parts| - 1;
    if n == 0 {
      assert Selects(parts[0], kind, other) <==> kind in parts[0].kinds;
    } else {
      var before := parts[..n];
      CommonKindsAreExact(before, kind, other);
      IntersectionIsExact(CommonKinds(before).value, parts[n].kinds, kind);
      assert forall i | 0 <= i < n :: before[i] == parts[i];
      assert Selects(parts[n], kind, other) <==> kind in parts[n].kinds;
    }
  }

  /** Recording "delete every edge of these kinds" is exact: PostgreSQL deletes
      an edge if and only if its kind is reported -- an empty report included. */
  lemma RecognizedKindsAreExact(criteria: Criteria, kind: Kind, other: Criteria -> bool)
    requires EdgeKindsFromCriteria(criteria).Some?
    ensures kind in EdgeKindsFromCriteria(criteria).value <==> Selects(criteria, kind, other)
  {
    if criteria.Conjunction? {
      CommonKindsAreExact(criteria.parts, kind, other);
    }
  }

  /** A part nothing is known of is never silently dropped: the recognizer
      accepts exactly the shapes whose selection its kinds decide. */
  lemma {:induction false} NothingIsDropped(parts: seq<Criteria>)
    requires parts != []
    ensures CommonKinds(parts).Some? <==>
      forall i | 0 <= i < |parts| :: parts[i].KindMatcher? && parts[i].symbol == EDGE_SYMBOL
    decreases |parts|
  {
    var n := |parts| - 1;
    if n > 0 {
      var before := parts[..n];
      NothingIsDropped(before);
      assert forall i | 0 <= i < n :: before[i] == parts[i];
    }
  }

  // ---- What a query reaches, and what is recorded for it --------------------

  /** Whether a criteria holds of the row that has this id, over this variable. An
      unknown part may narrow it in any way. */
  predicate Admits(criteria: Criteria, symbol: string, id: nat, other: Criteria -> bool) {
    match criteria
    case InIds(of, ids) => if of == symbol then id in ids else other(criteria)
    case Conjunction(parts) => forall i | 0 <= i < |parts| :: Admits(parts[i], symbol, id, other)
    case _ => other(criteria)
  }

  /** The rows a delete or update through a query changes, as PostgreSQL reads its
      criteria: every one of them holds of the row as it was. */
  predicate Reaches(criteria: seq<Criteria>, edges: bool, deletes: bool, row: Row, other: (Criteria, Row) -> bool) {
    match row
    case NodeChange(id, _, now) =>
      && !edges && (deletes ==> now.None?)
      && forall i | 0 <= i < |criteria| :: Admits(criteria[i], NODE_SYMBOL, id, c => other(c, row))
    case EdgeChange(id, before, after) =>
      && edges && before.Some? && (deletes ==> after.None?)
      && forall i | 0 <= i < |criteria| ::
           if deletes then Selects(criteria[i], before.value.kind, c => other(c, row))
           else Admits(criteria[i], EDGE_SYMBOL, id, c => other(c, row))
    case Retargeting => false
  }

  /** The sort of row a query of this sort changes. */
  predicate OfSort(edges: bool, deletes: bool, row: Row) {
    match row
    case NodeChange(_, _, now) => !edges && (deletes ==> now.None?)
    case EdgeChange(_, before, after) => edges && before.Some? && (deletes ==> after.None?)
    case Retargeting => false
  }

  /** The ids one recorded criteria targets, when it is that shape and alone. */
  function TargetIds(criteria: seq<Criteria>, symbol: string): Option<seq<nat>> {
    if |criteria| == 1 && criteria[0].InIds? && criteria[0].symbol == symbol then Some(criteria[0].ids) else None
  }

  /** The kinds one recorded criteria deletes the edges of. */
  function RelationshipDeleteScope(criteria: seq<Criteria>): Option<seq<Kind>> {
    if |criteria| == 1 then EdgeKindsFromCriteria(criteria[0]) else None
  }

  /** The keys a delete or update through a query is recorded under; None when its
      criteria is not recognized. */
  function TargetsOf(criteria: seq<Criteria>, edges: bool, deletes: bool): Option<set<Key>> {
    if !edges then
      var ids := TargetIds(criteria, NODE_SYMBOL);
      if ids.None? then None else Some(set id | id in ids.value :: NodeKey(id))
    else if !deletes then
      var ids := TargetIds(criteria, EDGE_SYMBOL);
      if ids.None? then None else Some(set id | id in ids.value :: EdgeKey(id))
    else
      var kinds := RelationshipDeleteScope(criteria);
      if kinds.None? then None
      else if kinds.value == [] then Some({})
      else Some({EdgeDelete(set kind | kind in kinds.value)})
  }

  /** Recording is exact: the keys recorded name a row if and only if the query
      reaches it, whatever an unrecognized part would have done. */
  lemma TargetsAreExact(criteria: seq<Criteria>, edges: bool, deletes: bool, row: Row, other: (Criteria, Row) -> bool)
    requires TargetsOf(criteria, edges, deletes).Some? && OfSort(edges, deletes, row)
    ensures Names(TargetsOf(criteria, edges, deletes).value, row) <==> Reaches(criteria, edges, deletes, row, other)
  {
    var targets := TargetsOf(criteria, edges, deletes).value;
    if edges && deletes {
      var kinds := EdgeKindsFromCriteria(criteria[0]).value;
      RecognizedKindsAreExact(criteria[0], row.before.value.kind, c => other(c, row));
      if kinds != [] {
        assert EdgeDelete(set kind | kind in kinds) in targets;
      }
    } else if edges {
      assert row.edge in criteria[0].ids ==> EdgeKey(row.edge) in targets;
    } else {
      assert row.node in criteria[0].ids ==> NodeKey(row.node) in targets;
    }
  }

  predicate HasUpdatingClause(criteria: seq<Criteria>)
    decreases criteria, 1
  {
    exists i | 0 <= i < |criteria| :: Updates(criteria[i])
  }

  predicate Updates(criterion: Criteria)
    decreases criterion, 0
  {
    match criterion
    case UpdatingClause => true
    case UpdatingClauses(count) => count > 0
    case Nested(members) => HasUpdatingClause(members)
    case _ => false
  }

  /** The statement the query builder turns final criteria into: nested lists
      flattened, and each clause list contributing its clauses. */
  function Flattened(criteria: seq<Criteria>): seq<Criteria>
    decreases criteria
  {
    if criteria == [] then []
    else
      var first := criteria[0];
      (match first
       case Nested(members) => Flattened(members)
       case UpdatingClauses(count) => seq(count, _ => UpdatingClause)
       case _ => [first]) + Flattened(criteria[1..])
  }

  /** The sniff is exact: final criteria write if and only if the statement built
      from them holds an updating clause. */
  lemma {:induction false} UpdatingClauseIsFound(criteria: seq<Criteria>)
    ensures HasUpdatingClause(criteria) <==> UpdatingClause in Flattened(criteria)
    decreases criteria
  {
    if criteria != [] {
      var first, rest := criteria[0], criteria[1..];
      UpdatingClauseIsFound(rest);
      if first.Nested? {
        UpdatingClauseIsFound(first.members);
      } else if first.UpdatingClauses? && first.count > 0 {
        assert seq(first.count, _ => UpdatingClause)[0] == UpdatingClause;
      }
      if HasUpdatingClause(rest) {
        var i :| 0 <= i < |rest| && Updates(rest[i]);
        assert Updates(criteria[i + 1]);
      }
      if HasUpdatingClause(criteria) {
        var i :| 0 <= i < |criteria| && Updates(criteria[i]);
        assert i == 0 || Updates(rest[i - 1]);
      }
    }
  }
}
