/** The writing calls of a transaction or batch wrapper: the keys each is recorded
    under, and why those name every row the call can change. */
module WriteCalls {
  import opened GraphStore
  import opened History

  const OBJECT_ID := "objectid"

  /** Cypher text, as far as this side can tell: whether it parses here, and if so
      whether it carries an updating clause. */
  datatype Text = Unparsed | ParsedAs(updating: bool)

  /** A node handed to a call: the id it brings along, if any, and its objectid. */
  datatype NodeArgument = NodeArgument(id: Option<NodeId>, objectId: Option<ObjectId>) {
    /** Zero stands for no id at all. */
    predicate HasId() {
      id.Some? && id.value != 0
    }
  }

  /** An upsert: the properties its target is identified by, and the objectid the node
      given carries, if one is given at all. */
  datatype NodeUpdate = NodeUpdate(node: Option<NodeArgument>, identity: seq<string>) {
    predicate ByObjectId() {
      node.Some? && identity == [OBJECT_ID] && node.value.objectId.Some?
    }
  }

  /** A call with its arguments; what a create was made is known from its result
      alone. A missing argument is a nil one. */
  datatype Call =
    | CreateNode(made: Option<NodeId>)
    | UpdateNode(node: Option<NodeId>)
    | CreateRelationship(made: Option<EdgeId>)
    | UpdateRelationship(relationship: Option<EdgeId>)
    | Cypher(text: Text)
    | Raw
    | BufferNode(argument: Option<NodeArgument>)
    | CreateNodes(ids: seq<NodeId>)
    | DeleteNode(id: NodeId)
    | UpdateNodeBy(update: NodeUpdate)
    | UpdateNodes(nodes: seq<Option<NodeId>>)
    | BufferRelationship(triple: Option<EdgeRow>)
    | DeleteRelationship(relationshipId: EdgeId)

  /** How a call is recorded. */
  datatype Style = ByKey | ByResult | ByResultOrFallback | ByFallback | NotAtAll

  function StyleOf(call: Call): Style {
    match call
    case CreateNode(_) => ByResult
    case CreateRelationship(_) => ByResult
    case CreateNodes(_) => ByResultOrFallback
    case Raw => ByFallback
    case Cypher(text) => if text == ParsedAs(false) then NotAtAll else ByFallback
    case BufferNode(argument) =>
      if argument.Some? && !argument.value.HasId() && argument.value.objectId.None? then ByFallback else ByKey
    case UpdateNodeBy(update) => if update.ByObjectId() then ByKey else ByFallback
    case _ => ByKey
  }

  function NodeKeys(ids: seq<NodeId>): set<Key> {
    set id | id in ids :: NodeKey(id)
  }

  function Given(nodes: seq<Option<NodeId>>): seq<NodeId> {
    if nodes == [] then []
    else (if nodes[0].Some? then [nodes[0].value] else []) + Given(nodes[1..])
  }

  function KeysOf(call: Call): set<Key> {
    match call
    case CreateNode(made) => if made.Some? then {NodeKey(made.value)} else {}
    case UpdateNode(node) => if node.Some? then {NodeKey(node.value)} else {}
    case CreateRelationship(made) => if made.Some? then {EdgeKey(made.value)} else {}
    case UpdateRelationship(relationship) => if relationship.Some? then {EdgeKey(relationship.value)} else {}
    case BufferNode(argument) =>
      if argument.None? then {}
      else if argument.value.HasId() then {NodeKey(argument.value.id.value)}
      else if argument.value.objectId.Some? then {ObjectIdKey(argument.value.objectId.value)}
      else {}
    case CreateNodes(ids) => NodeKeys(ids)
    case DeleteNode(id) => {NodeKey(id)}
    case UpdateNodeBy(update) => if update.ByObjectId() then {ObjectIdKey(update.node.value.objectId.value)} else {}
    case UpdateNodes(nodes) => NodeKeys(Given(nodes))
    case BufferRelationship(triple) => if triple.Some? then {TripleKey(triple.value)} else {}
    case DeleteRelationship(id) => {EdgeKey(id)}
    case _ => {}
  }

  // ---- What the calls do to PostgreSQL --------------------------------------

  /** The rows a call may change. A buffered create gets an id of its own unless it
      brings one; an upsert finds or makes rows that carry its objectid; what text
      does that is not known to be a read, nobody knows. */
  predicate MayChange(call: Call, row: Row) {
    match call
    case CreateNode(made) => row.NodeChange? && made == Some(row.node) && row.was.None?
    case UpdateNode(node) => row.NodeChange? && node == Some(row.node)
    case CreateRelationship(made) => row.EdgeChange? && made == Some(row.edge)
    case UpdateRelationship(relationship) => row.EdgeChange? && relationship == Some(row.edge)
    case Cypher(text) => text != ParsedAs(false)
    case Raw => true
    case BufferNode(argument) =>
      && row.NodeChange? && argument.Some? && row.was.None? && row.now.Some?
      && row.now.value.objectId == argument.value.objectId
      && (argument.value.HasId() ==> row.node == argument.value.id.value)
    case CreateNodes(ids) => row.NodeChange? && row.node in ids && row.was.None?
    case DeleteNode(id) => row.NodeChange? && row.node == id && row.now.None?
    case UpdateNodeBy(update) =>
      update.ByObjectId() ==>
        && row.NodeChange? && row.now.Some? && row.now.value.objectId == update.node.value.objectId
        && (row.was.Some? ==> row.was.value.objectId == row.now.value.objectId)
    case UpdateNodes(nodes) => row.NodeChange? && Some(row.node) in nodes
    case BufferRelationship(triple) => row.EdgeChange? && triple.Some? && row.after == triple
    case DeleteRelationship(id) => row.EdgeChange? && row.edge == id && row.after.None?
  }

  lemma {:induction false} GivenNodes(nodes: seq<Option<NodeId>>, id: NodeId)
    ensures id in Given(nodes) <==> Some(id) in nodes
    decreases |nodes|
  {
    if nodes != [] {
      GivenNodes(nodes[1..], id);
      assert Some(id) in nodes <==> nodes[0] == Some(id) || Some(id) in nodes[1..];
    }
  }

  /** The key a changed row is found by. */
  function KeyFor(call: Call, row: Row): Key
    requires MayChange(call, row) && !StyleOf(call).ByFallback?
  {
    match call
    case BufferNode(argument) => if argument.value.HasId() then NodeKey(row.node) else ObjectIdKey(row.now.value.objectId.value)
    case UpdateNodeBy(update) => ObjectIdKey(row.now.value.objectId.value)
    case BufferRelationship(triple) => TripleKey(row.after.value)
    case _ => (
      match row
      case NodeChange(n, _, _) => NodeKey(n)
      case EdgeChange(e, _, _) => EdgeKey(e)
      case Retargeting => Fallback)
  }

  /** Recording is complete: unless the call is recorded as a fallback, its keys name
      every row it may change. */
  lemma EveryRowIsRecorded(call: Call, row: Row)
    requires MayChange(call, row) && !StyleOf(call).ByFallback?
    ensures Names(KeysOf(call), row)
  {
    if call.UpdateNodes? {
      GivenNodes(call.nodes, row.node);
    }
    assert KeyFor(call, row) in KeysOf(call) && AnswersTo(row, KeyFor(call, row));
  }

  /** And it is no wider than that: each key recorded leads to some row the call may
      change. */
  lemma EveryKeyIsAnswered(call: Call, key: Key) returns (row: Row)
    requires key in KeysOf(call)
    ensures MayChange(call, row) && AnswersTo(row, key)
  {
    match key
    case NodeKey(id) =>
      if call.UpdateNodes? {
        GivenNodes(call.nodes, id);
      }
      var objectId := if call.BufferNode? then call.argument.value.objectId else None;
      row := NodeChange(id, None, if call.DeleteNode? then None else Some(NodeRow({}, objectId, "")));
    case ObjectIdKey(o) => row := NodeChange(0, None, Some(NodeRow({}, Some(o), "")));
    case EdgeKey(e) => row := EdgeChange(e, None, None);
    case TripleKey(t) => row := EdgeChange(0, None, Some(t));
    case _ => row := Retargeting;
  }
}
