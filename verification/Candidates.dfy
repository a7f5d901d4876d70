/** Which rows of the View one write may have removed without naming them by
    key: the rows its kind-scoped delete criteria match. Read-back re-reads
    every one of them by id. */
module Candidates {
  import opened GraphStore
  import opened Overlay

  /** The live nodes of `g` a write's kind-scoped node deletes match. */
  function CandidateNodes(g: Graph, w: Changes): set<NodeId> {
    set n | n in g.nodes && w.DeletesNodeLike(g.nodes[n])
  }

  /** The edge records of `g`, hidden ones included, that its kind-scoped
      relationship deletes match. */
  function CandidateEdges(g: Graph, w: Changes): set<EdgeId> {
    set e | e in g.edges && w.DeletesKind(g.edges[e].kind)
  }

  function NodesMatching(g: Graph, criteria: KindCriteria): set<NodeId> {
    set n | n in g.nodes && criteria.Matches(g.nodes[n])
  }

  function NodesUnder(g: Graph, objectId: ObjectId): set<NodeId> {
    set n | n in g.nodes && g.nodes[n].objectId == Some(objectId)
  }

  /** Every kind a row of `g` carries has a name the View's kind table holds. */
  ghost predicate KindsKnown(g: Graph, known: set<Kind>) {
    && (forall n | n in g.nodes :: g.nodes[n].kinds <= known)
    && (forall e | e in g.edges :: g.edges[e].kind in known)
  }

  ghost predicate Distinct<T>(s: seq<T>) {
    forall i, j | 0 <= i < j < |s| :: s[i] != s[j]
  }

  /** The nodes the kind bitmaps of `kinds` yield, less the excluded ones. */
  function NodesCarrying(g: Graph, kinds: set<Kind>, noneOf: set<Kind>): set<NodeId> {
    set n | n in g.nodes && g.nodes[n].kinds * kinds != {} && g.nodes[n].kinds * noneOf == {}
  }

  lemma CarryingSplits(g: Graph, a: set<Kind>, b: set<Kind>, noneOf: set<Kind>)
    ensures NodesCarrying(g, a + b, noneOf) == NodesCarrying(g, a, noneOf) + NodesCarrying(g, b, noneOf)
  {
    forall n | n in g.nodes
      ensures g.nodes[n].kinds * (a + b) == g.nodes[n].kinds * a + g.nodes[n].kinds * b
    {
    }
  }

  /** The ids some segment has a node record for. */
  function Touched(segments: seq<Segment>): set<NodeId> {
    set i, n | 0 <= i < |segments| && n in segments[i].nodes :: n
  }

  lemma {:induction false} TouchedHasRecord(segments: seq<Segment>, from: nat, n: NodeId)
    requires from <= |segments|
    ensures NewestNodeRecord(segments, from, n).Some? <==> exists i | from <= i < |segments| :: n in segments[i].nodes
    decreases |segments| - from
  {
    if from < |segments| {
      TouchedHasRecord(segments, from + 1, n);
    }
  }

  /** A delta record that puts a live node under `objectId`. */
  predicate Live(record: Option<Option<NodeRow>>, objectId: ObjectId) {
    record.Some? && record.value.Some? && record.value.value.objectId == Some(objectId)
  }

  class ViewCandidates {
    const view: View
    var nodes: set<NodeId>
    var edges: seq<EdgeId>

    constructor (view: View)
      ensures this.view == view && nodes == {} && edges == []
    {
      this.view := view;
      nodes, edges := {}, [];
    }

    /** Looks an objectid up in the merged delta, where an id's newest record
        decides it, and then in the base, skipping what the delta overrides. */
    method NodesByObjectID(objectId: ObjectId) returns (found: seq<NodeId>)
      ensures Distinct(found)
      ensures forall n :: n in found <==> n in NodesUnder(view.Effective(), objectId)
    {
      hide NewestNodeRecord;
      found := [];
      var merged := Touched(view.segments);
      var rest := merged;
      while rest != {}
        invariant rest <= merged && Distinct(found)
        invariant forall n :: n in found <==> n in merged - rest && Live(NewestNodeRecord(view.segments, 0, n), objectId)
        decreases rest
      {
        var n :| n in rest;
        rest := rest - {n};
        if Live(NewestNodeRecord(view.segments, 0, n), objectId) {
          found := found + [n];
        }
      }
      ghost var fromDelta := found;
      rest := view.base.nodes.Keys;
      while rest != {}
        invariant rest <= view.base.nodes.Keys && Distinct(found)
        invariant forall n :: n in found <==>
          n in fromDelta || (n in view.base.nodes.Keys - rest && n !in merged && view.base.nodes[n].objectId == Some(objectId))
        decreases rest
      {
        var n :| n in rest;
        rest := rest - {n};
        if view.base.nodes[n].objectId == Some(objectId) && n !in merged {
          found := found + [n];
        }
      }
      forall n: NodeId
        ensures n in found <==> n in NodesUnder(view.Effective(), objectId)
      {
        TouchedHasRecord(view.segments, 0, n);
        EffectiveNodeIsNewest(view, n);
      }
    }

    /** Marks every live node the View knows under `objectId`, so that each is
        re-read by its id. */
    method AddObjectID(objectId: ObjectId)
      modifies this`nodes
      ensures nodes == old(nodes) + NodesUnder(view.Effective(), objectId)
    {
      var found := NodesByObjectID(objectId);
      for i := 0 to |found|
        invariant nodes == old(nodes) + set n | n in found[..i]
      {
        assert found[..i + 1] == found[..i] + [found[i]];
        nodes := nodes + {found[i]};
      }
      assert found[..|found|] == found;
    }

    /** Marks every node one criteria deletes. `known` holds the kind names that
        resolve to an id: an unresolved included kind matches nothing, and an
        unresolved excluded kind cannot be replayed and is an error. */
    method AddNodeKindCriteria(known: set<Kind>, criteria: KindCriteria) returns (ok: bool)
      requires KindsKnown(view.Effective(), known)
      modifies this`nodes
      ensures ok <==> criteria.noneOf <= known
      ensures ok ==> nodes == old(nodes) + NodesMatching(view.Effective(), criteria)
      ensures !ok ==> nodes == old(nodes)
    {
      if !(criteria.noneOf <= known) {
        return false;
      }
      var g := view.Effective();
      if criteria.anyOf == {} {
        nodes := nodes + NodesMatching(g, criteria);
        return true;
      }
      var kinds := criteria.anyOf * known;
      var rest := kinds;
      while rest != {}
        invariant rest <= kinds
        invariant nodes == old(nodes) + NodesCarrying(g, kinds - rest, criteria.noneOf)
        decreases rest
      {
        var kind :| kind in rest;
        ghost var done := kinds - rest;
        nodes := nodes + NodesCarrying(g, {kind}, criteria.noneOf);
        rest := rest - {kind};
        assert kinds - rest == done + {kind};
        CarryingSplits(g, done, {kind}, criteria.noneOf);
      }
      assert kinds - rest == kinds;
      forall n | n in g.nodes
        ensures g.nodes[n].kinds * kinds == g.nodes[n].kinds * criteria.anyOf
      {
        assert g.nodes[n].kinds <= known;
      }
      assert NodesCarrying(g, kinds, criteria.noneOf) == NodesMatching(g, criteria);
      ok := true;
    }

    /** Scans the segments newest first -- the first record met for an id decides
        it -- and then the base edges no segment decides. */
    method AddEdgeKindCriteria(wanted: set<Kind>)
      requires edges == []
      modifies this`edges
      ensures Distinct(edges)
      ensures forall e :: e in edges <==> e in view.Effective().edges && view.Effective().edges[e].kind in wanted
    {
      if wanted == {} {
        return;
      }
      var decided: set<EdgeId> := {};
      var i := |view.segments|;
      while i > 0
        invariant 0 <= i <= |view.segments|
        invariant forall e :: e in decided <==> NewestEdgeRecord(view.segments, i, e).Some?
        invariant Distinct(edges)
        invariant forall e :: e in edges <==> e in decided && Wanted(NewestEdgeRecord(view.segments, i, e).value, wanted)
      {
        i := i - 1;
        decided := ScanSegment(i, decided, wanted);
      }
      ScanBase(decided, wanted);
    }

    static predicate Wanted(record: Option<EdgeRow>, wanted: set<Kind>) {
      record.Some? && record.value.kind in wanted
    }

    method ScanSegment(i: nat, before: set<EdgeId>, wanted: set<Kind>) returns (decided: set<EdgeId>)
      requires i < |view.segments|
      requires forall e :: e in before <==> NewestEdgeRecord(view.segments, i + 1, e).Some?
      requires Distinct(edges)
      requires forall e :: e in edges <==> e in before && Wanted(NewestEdgeRecord(view.segments, i + 1, e).value, wanted)
      modifies this`edges
      ensures forall e :: e in decided <==> NewestEdgeRecord(view.segments, i, e).Some?
      ensures Distinct(edges)
      ensures forall e :: e in edges <==> e in decided && Wanted(NewestEdgeRecord(view.segments, i, e).value, wanted)
    {
      var records := view.segments[i].edges;
      decided := before;
      var rest := records.Keys;
      while rest != {}
        invariant rest <= records.Keys
        invariant decided == before + (records.Keys - rest)
        invariant Distinct(edges)
        invariant forall e :: e in edges <==> e in decided && Wanted(NewestEdgeRecord(view.segments, i, e).value, wanted)
        decreases rest
      {
        var e :| e in rest;
        rest := rest - {e};
        if e !in decided {
          if records[e].Some? && records[e].value.kind in wanted {
            edges := edges + [e];
          }
          decided := decided + {e};
        }
      }
    }

    method ScanBase(decided: set<EdgeId>, wanted: set<Kind>)
      requires forall e :: e in decided <==> NewestEdgeRecord(view.segments, 0, e).Some?
      requires Distinct(edges)
      requires forall e :: e in edges <==> e in decided && Wanted(NewestEdgeRecord(view.segments, 0, e).value, wanted)
      modifies this`edges
      ensures Distinct(edges)
      ensures forall e :: e in edges <==> e in view.Effective().edges && view.Effective().edges[e].kind in wanted
    {
      var slots := view.base.edges;
      var rest := slots.Keys;
      ghost var fromDelta := edges;
      while rest != {}
        invariant rest <= slots.Keys
        invariant Distinct(edges)
        invariant forall e :: e in edges <==>
          e in fromDelta || (e in slots.Keys - rest && e !in decided && slots[e].kind in wanted)
        decreases rest
      {
        var e :| e in rest;
        rest := rest - {e};
        if slots[e].kind in wanted && e !in decided {
          edges := edges + [e];
        }
      }
      forall e: EdgeId
        ensures e in edges <==> e in view.Effective().edges && view.Effective().edges[e].kind in wanted
      {
        EffectiveIsNewest(view, e);
      }
    }

    /** Every candidate of one write: the nodes the View knows under an objectid
        found on no row, and the rows its delete criteria match. */
    method Collect(known: set<Kind>, w: Changes, absent: set<ObjectId>) returns (ok: bool)
      requires nodes == {} && edges == []
      requires KindsKnown(view.Effective(), known)
      modifies this
      ensures ok <==> forall criteria | criteria in w.nodeDeletes :: criteria.noneOf <= known
      ensures ok ==> nodes == CandidateNodes(view.Effective(), w) + Under(view.Effective(), absent)
      ensures ok ==> Distinct(edges) && forall e :: e in edges <==> e in CandidateEdges(view.Effective(), w)
    {
      ghost var g := view.Effective();
      var objectIds := absent;
      while objectIds != {}
        invariant objectIds <= absent
        invariant nodes == Under(g, absent - objectIds) && edges == []
        decreases objectIds
      {
        var objectId :| objectId in objectIds;
        AddObjectID(objectId);
        objectIds := objectIds - {objectId};
      }
      var rest := w.nodeDeletes;
      while rest != {}
        invariant rest <= w.nodeDeletes
        invariant forall criteria | criteria in w.nodeDeletes - rest :: criteria.noneOf <= known
        invariant nodes == Under(g, absent) +
                           set n | n in g.nodes && exists c | c in w.nodeDeletes - rest :: c.Matches(g.nodes[n])
        invariant edges == []
        decreases rest
      {
        var criteria :| criteria in rest;
        ok := AddNodeKindCriteria(known, criteria);
        if !ok {
          return;
        }
        rest := rest - {criteria};
      }
      var wanted := set kinds, kind | kinds in w.edgeDeletes && kind in kinds && kind in known :: kind;
      AddEdgeKindCriteria(wanted);
      ok := true;
    }
  }

  /** The nodes `g` knows under any of `objectIds`. */
  function Under(g: Graph, objectIds: set<ObjectId>): set<NodeId> {
    set n | n in g.nodes && g.nodes[n].objectId.Some? && g.nodes[n].objectId.value in objectIds
  }
}
