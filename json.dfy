/**
 * JSON storage of a graph. `save` keeps, for every node, its id and its
 * payload, and for every link its two ends and its payload, leaving a
 * payload out when it is `undefined`; `load` checks the stored shape and
 * rebuilds a fresh graph, all nodes first, then all links. The stored
 * object is modelled as records; the JSON text around it is not.
 */
module Json {
  import opened Js
  import opened Graphs

  /** A stored node: the `id` and `data` keys are each there or not. */
  datatype NodeRecord<Id, D> = NodeRecord(id: Option<Id>, data: Option<D>)

  /** A stored link: the `fromId`, `toId` and `data` keys are each there or not. */
  datatype LinkRecord<Id, D> = LinkRecord(fromId: Option<Id>, toId: Option<Id>, data: Option<D>)

  /** The stored object: its `nodes` and `links` arrays are each there or not. */
  datatype Stored<Id, D> = Stored(nodes: Option<seq<NodeRecord<Id, D>>>, links: Option<seq<LinkRecord<Id, D>>>)

  /** The argument of `load`: the stored object as text, or a value that is not a string. */
  datatype Argument<Id, D> = Text(stored: Stored<Id, D>) | NotText

  /** What `load` throws: an `Error` carrying a message, or a bare string. */
  datatype Thrown = ErrorObject(message: string) | ThrownString(text: string)

  const NotStringMessage: string := "Cannot load graph which is not stored as a string"
  const MissingArraysMessage: string := "Cannot load graph without links and nodes"
  const NodeIdMissingMessage: string := "Graph node format is invalid: Node id is missing"
  const LinkEndMissingMessage: string := "Graph link format is invalid. Both fromId and toId are required"

  // Save

  /** `transformNodeForSave(node)`: the id, and the payload only when it is defined. */
  function TransformNodeForSave<Id, D>(node: Node<Id, D>): NodeRecord<Id, D>
  {
    NodeRecord(Some(node.id), node.data)
  }

  /** `transformLinkForSave(link)`: both ends, and the payload only when it is defined. */
  function TransformLinkForSave<Id, D>(link: Link<Id, D>): LinkRecord<Id, D>
  {
    LinkRecord(Some(link.fromId), Some(link.toId), link.data)
  }

  /** The node records `save` writes, in `forEachNode` order. */
  function SavedNodes<Id(==), D>(g: GraphValue<Id, D>): seq<NodeRecord<Id, D>>
  {
    var nodes := Nodes(g);
    seq(|nodes|, i requires 0 <= i < |nodes| => TransformNodeForSave(nodes[i]))
  }

  /** The link records `save` writes, in `forEachLink` order. */
  function SavedLinks<Id(==), D>(g: GraphValue<Id, D>): seq<LinkRecord<Id, D>>
  {
    seq(|g.links|, j requires 0 <= j < |g.links| => TransformLinkForSave(g.links[j]))
  }

  /** The object `save(graph)` stores. */
  function Saved<Id(==), D>(g: GraphValue<Id, D>): Stored<Id, D>
  {
    Stored(Some(SavedNodes(g)), Some(SavedLinks(g)))
  }

  /**
   * The stored object has one record per node and one per link, in
   * iteration order; every record has its ids, and has a payload exactly
   * when the node or link has one.
   */
  lemma SavedRecords<Id, D>(g: GraphValue<Id, D>)
    ensures Saved(g).nodes.Some? && |Saved(g).nodes.value| == NodesCount(g)
    ensures Saved(g).links.Some? && |Saved(g).links.value| == LinksCount(g)
    ensures forall i :: 0 <= i < |g.ids| ==>
      && Saved(g).nodes.value[i].id == Some(g.ids[i])
      && (Saved(g).nodes.value[i].data.Some? <==> DataOf(g, g.ids[i]).Some?)
      && Saved(g).nodes.value[i].data == DataOf(g, g.ids[i])
    ensures forall j :: 0 <= j < |g.links| ==>
      && Saved(g).links.value[j].fromId == Some(g.links[j].fromId)
      && Saved(g).links.value[j].toId == Some(g.links[j].toId)
      && (Saved(g).links.value[j].data.Some? <==> g.links[j].data.Some?)
      && Saved(g).links.value[j].data == g.links[j].data
  {
  }

  /**
   * `save(graph)`: node records pushed while `forEachNode` visits the
   * nodes, then link records pushed while `forEachLink` visits the links.
   */
  method Save<Id, D>(graph: Graph<Id, D>) returns (r: Stored<Id, D>)
    ensures r == Saved(graph.Value())
  {
    var g := graph.Value();
    var nodes: seq<NodeRecord<Id, D>> := [];
    for i := 0 to |graph.ids|
      invariant nodes == SavedNodes(g)[..i]
    {
      var id := graph.ids[i];
      var data := if id in graph.data then graph.data[id] else None;
      assert SavedNodes(g)[..i + 1] == SavedNodes(g)[..i] + [TransformNodeForSave(Node(id, data))];
      nodes := nodes + [TransformNodeForSave(Node(id, data))];
    }
    var links: seq<LinkRecord<Id, D>> := [];
    for j := 0 to |graph.links|
      invariant links == SavedLinks(g)[..j]
    {
      assert SavedLinks(g)[..j + 1] == SavedLinks(g)[..j] + [TransformLinkForSave(graph.links[j])];
      links := links + [TransformLinkForSave(graph.links[j])];
    }
    assert |SavedNodes(g)| == |g.ids| && SavedNodes(g)[..|g.ids|] == SavedNodes(g);
    assert SavedLinks(g)[..|g.links|] == SavedLinks(g);
    r := Stored(Some(nodes), Some(links));
  }

  // Load

  /** Some node record lacks its `id`. */
  predicate MissingNodeId<Id, D>(nodes: seq<NodeRecord<Id, D>>)
  {
    exists i :: 0 <= i < |nodes| && nodes[i].id.None?
  }

  /** Some link record lacks `fromId` or `toId`. */
  predicate MissingLinkEnd<Id, D>(links: seq<LinkRecord<Id, D>>)
  {
    exists j :: 0 <= j < |links| && (links[j].fromId.None? || links[j].toId.None?)
  }

  /** The node loop of `load`: each record in turn is checked, then passed to `addNode`. */
  function LoadNodes<Id(==), D>(g: GraphValue<Id, D>, nodes: seq<NodeRecord<Id, D>>): Result<GraphValue<Id, D>, Thrown>
    decreases |nodes|
  {
    if |nodes| == 0 then Success(g)
    else if nodes[0].id.None? then Failure(ErrorObject(NodeIdMissingMessage))
    else LoadNodes(WithNode(g, nodes[0].id.value, nodes[0].data), nodes[1..])
  }

  /** The link loop of `load`: each record in turn is checked, then passed to `addLink`. */
  function LoadLinks<Id(==), D>(g: GraphValue<Id, D>, links: seq<LinkRecord<Id, D>>): Result<GraphValue<Id, D>, Thrown>
    decreases |links|
  {
    if |links| == 0 then Success(g)
    else if links[0].fromId.None? || links[0].toId.None? then Failure(ThrownString(LinkEndMissingMessage))
    else LoadLinks(WithLink(g, links[0].fromId.value, links[0].toId.value, links[0].data), links[1..])
  }

  /** What `load(jsonGraph)` returns or throws. */
  function Loaded<Id(==), D>(arg: Argument<Id, D>): Result<GraphValue<Id, D>, Thrown>
  {
    match arg
    case NotText => Failure(ErrorObject(NotStringMessage))
    case Text(stored) =>
      if stored.links.None? || stored.nodes.None? then Failure(ErrorObject(MissingArraysMessage))
      else
        match LoadNodes(Empty(), stored.nodes.value)
        case Failure(e) => Failure(e)
        case Success(g) => LoadLinks(g, stored.links.value)
  }

  /**
   * `load(jsonGraph)`: a fresh graph built by the node loop and then the
   * link loop, or the value thrown at the first check that fails.
   */
  method Load<Id, D>(arg: Argument<Id, D>) returns (r: Result<Graph<Id, D>, Thrown>)
    ensures r.Failure? ==> Loaded(arg) == Failure(r.error)
    ensures r.Success? ==> fresh(r.value) && r.value.Valid() && Loaded(arg) == Success(r.value.Value())
  {
    if arg.NotText? {
      return Failure(ErrorObject(NotStringMessage));
    }
    var stored := arg.stored;
    var graph := new Graph<Id, D>();
    if stored.links.None? || stored.nodes.None? {
      return Failure(ErrorObject(MissingArraysMessage));
    }
    var nodes := stored.nodes.value;
    for i := 0 to |nodes|
      invariant fresh(graph) && graph.Valid()
      invariant LoadNodes(Empty(), nodes) == LoadNodes(graph.Value(), nodes[i..])
    {
      assert nodes[i..][1..] == nodes[i + 1..];
      if nodes[i].id.None? {
        return Failure(ErrorObject(NodeIdMissingMessage));
      }
      graph.AddNode(nodes[i].id.value, nodes[i].data);
    }
    var links := stored.links.value;
    for j := 0 to |links|
      invariant fresh(graph) && graph.Valid()
      invariant Loaded(arg) == LoadLinks(graph.Value(), links[j..])
    {
      assert links[j..][1..] == links[j + 1..];
      if links[j].fromId.None? || links[j].toId.None? {
        return Failure(ThrownString(LinkEndMissingMessage));
      }
      graph.AddLink(links[j].fromId.value, links[j].toId.value, links[j].data);
    }
    return Success(graph);
  }

  // Properties of load

  /** The node loop throws exactly when some record lacks its id, and then it throws the node error. */
  lemma {:induction false} LoadNodesOutcome<Id, D>(g: GraphValue<Id, D>, nodes: seq<NodeRecord<Id, D>>)
    ensures LoadNodes(g, nodes).Failure? <==> MissingNodeId(nodes)
    ensures LoadNodes(g, nodes).Failure? ==> LoadNodes(g, nodes).error == ErrorObject(NodeIdMissingMessage)
    decreases |nodes|
  {
    if |nodes| > 0 && nodes[0].id.Some? {
      var rest := nodes[1..];
      LoadNodesOutcome(WithNode(g, nodes[0].id.value, nodes[0].data), rest);
      if MissingNodeId(nodes) {
        var i :| 0 <= i < |nodes| && nodes[i].id.None?;
        assert rest[i - 1].id.None?;
      }
      if MissingNodeId(rest) {
        var i :| 0 <= i < |rest| && rest[i].id.None?;
        assert nodes[i + 1].id.None?;
      }
    }
  }

  /** The link loop throws exactly when some record lacks an end, and then it throws the bare link message. */
  lemma {:induction false} LoadLinksOutcome<Id, D>(g: GraphValue<Id, D>, links: seq<LinkRecord<Id, D>>)
    ensures LoadLinks(g, links).Failure? <==> MissingLinkEnd(links)
    ensures LoadLinks(g, links).Failure? ==> LoadLinks(g, links).error == ThrownString(LinkEndMissingMessage)
    decreases |links|
  {
    if |links| > 0 && links[0].fromId.Some? && links[0].toId.Some? {
      var rest := links[1..];
      LoadLinksOutcome(WithLink(g, links[0].fromId.value, links[0].toId.value, links[0].data), rest);
      if MissingLinkEnd(links) {
        var j :| 0 <= j < |links| && (links[j].fromId.None? || links[j].toId.None?);
        assert rest[j - 1] == links[j];
      }
      if MissingLinkEnd(rest) {
        var j :| 0 <= j < |rest| && (rest[j].fromId.None? || rest[j].toId.None?);
        assert links[j + 1] == rest[j];
      }
    }
  }

  /**
   * `load` throws, in this order of checks: an `Error` for an argument that
   * is not a string, an `Error` when `links` or `nodes` is missing, an
   * `Error` when a node has no id, and a bare string when a link misses an
   * end; it returns a graph exactly when none of these applies.
   */
  lemma LoadOutcome<Id, D>(arg: Argument<Id, D>)
    ensures arg.NotText? ==> Loaded(arg) == Failure(ErrorObject(NotStringMessage))
    ensures arg.Text? && (arg.stored.links.None? || arg.stored.nodes.None?) ==>
      Loaded(arg) == Failure(ErrorObject(MissingArraysMessage))
    ensures arg.Text? && arg.stored.links.Some? && arg.stored.nodes.Some? ==>
      var nodes, links := arg.stored.nodes.value, arg.stored.links.value;
      && (Loaded(arg).Success? <==> !MissingNodeId(nodes) && !MissingLinkEnd(links))
      && (MissingNodeId(nodes) ==> Loaded(arg) == Failure(ErrorObject(NodeIdMissingMessage)))
      && (!MissingNodeId(nodes) && MissingLinkEnd(links) ==> Loaded(arg) == Failure(ThrownString(LinkEndMissingMessage)))
  {
    if arg.Text? && arg.stored.links.Some? && arg.stored.nodes.Some? {
      var nodes, links := arg.stored.nodes.value, arg.stored.links.value;
      LoadNodesOutcome(Empty(), nodes);
      if !MissingNodeId(nodes) {
        LoadLinksOutcome(LoadNodes(Empty(), nodes).value, links);
      }
    }
  }

  /** The ids the node records carry. */
  function RecordIds<Id(==), D>(nodes: seq<NodeRecord<Id, D>>): set<Id>
  {
    set i | 0 <= i < |nodes| && nodes[i].id.Some? :: nodes[i].id.value
  }

  /** Record `i` has an id and no later record has the same one. */
  predicate LastWithId<Id(==), D>(nodes: seq<NodeRecord<Id, D>>, i: int)
    requires 0 <= i < |nodes|
  {
    nodes[i].id.Some? && forall j :: i < j < |nodes| ==> nodes[j].id != nodes[i].id
  }

  /** Records after the first lack no id when none of them does. */
  lemma NoMissingNodeIdInTail<Id, D>(nodes: seq<NodeRecord<Id, D>>)
    requires |nodes| > 0 && !MissingNodeId(nodes)
    ensures nodes[0].id.Some? && !MissingNodeId(nodes[1..])
  {
  }

  /**
   * The node loop adds no link, adds exactly the recorded ids, leaves other
   * nodes alone, and gives each id the payload of its last record (or
   * none when that record has no `data`).
   */
  lemma {:induction false} LoadNodesData<Id, D>(g: GraphValue<Id, D>, nodes: seq<NodeRecord<Id, D>>)
    requires !MissingNodeId(nodes)
    ensures LoadNodes(g, nodes).Success?
    ensures var r := LoadNodes(g, nodes).value;
      && r.links == g.links
      && r.data.Keys == g.data.Keys + RecordIds(nodes)
      && (forall k :: k in g.data && k !in RecordIds(nodes) ==> r.data[k] == g.data[k])
      && (forall i :: 0 <= i < |nodes| && LastWithId(nodes, i) ==> r.data[nodes[i].id.value] == nodes[i].data)
    decreases |nodes|
  {
    if |nodes| > 0 {
      var id, rest := nodes[0].id.value, nodes[1..];
      var h := WithNode(g, id, nodes[0].data);
      WithNodeSpec(g, id, nodes[0].data);
      NoMissingNodeIdInTail(nodes);
      LoadNodesData(h, rest);
      var r := LoadNodes(g, nodes).value;
      assert RecordIds(nodes) == {id} + RecordIds(rest) by {
        forall k | k in RecordIds(nodes) ensures k in {id} + RecordIds(rest) {
          var i :| 0 <= i < |nodes| && nodes[i].id.Some? && nodes[i].id.value == k;
          if i > 0 {
            assert rest[i - 1] == nodes[i];
          }
        }
        forall k | k in RecordIds(rest) ensures k in RecordIds(nodes) {
          var i :| 0 <= i < |rest| && rest[i].id.Some? && rest[i].id.value == k;
          assert nodes[i + 1] == rest[i];
        }
      }
      forall i | 0 <= i < |nodes| && LastWithId(nodes, i)
        ensures r.data[nodes[i].id.value] == nodes[i].data
      {
        if i == 0 {
          assert id !in RecordIds(rest);
        } else {
          assert rest[i - 1] == nodes[i];
          assert LastWithId(rest, i - 1) by {
            forall j | i - 1 < j < |rest| ensures rest[j].id != rest[i - 1].id {
              assert rest[j] == nodes[j + 1];
            }
          }
        }
      }
    }
  }

  /**
   * When the records carry distinct ids that are new to the graph, the
   * node loop appends them, in stored order, to the nodes already there.
   */
  lemma {:induction false} LoadNodesOrder<Id, D>(g: GraphValue<Id, D>, nodes: seq<NodeRecord<Id, D>>)
    requires !MissingNodeId(nodes)
    requires forall i, j :: 0 <= i < j < |nodes| ==> nodes[i].id != nodes[j].id
    requires forall i :: 0 <= i < |nodes| && nodes[i].id.Some? ==> nodes[i].id.value !in g.data
    ensures LoadNodes(g, nodes).Success?
    ensures var r := LoadNodes(g, nodes).value;
      && |r.ids| == |g.ids| + |nodes| && r.ids[..|g.ids|] == g.ids
      && forall i :: 0 <= i < |nodes| ==> nodes[i].id == Some(r.ids[|g.ids| + i])
    decreases |nodes|
  {
    if |nodes| > 0 {
      var id, rest := nodes[0].id.value, nodes[1..];
      var h := WithNode(g, id, nodes[0].data);
      WithNodeSpec(g, id, nodes[0].data);
      NoMissingNodeIdInTail(nodes);
      forall i | 0 <= i < |rest| && rest[i].id.Some?
        ensures rest[i].id.value !in h.data
      {
        assert nodes[i + 1] == rest[i];
      }
      forall i, j | 0 <= i < j < |rest|
        ensures rest[i].id != rest[j].id
      {
        assert nodes[i + 1] == rest[i] && nodes[j + 1] == rest[j];
      }
      LoadNodesOrder(h, rest);
      var r := LoadNodes(g, nodes).value;
      assert h.ids == g.ids + [id];
      assert r.ids[..|g.ids|] == r.ids[..|h.ids|][..|g.ids|];
      forall i | 0 <= i < |nodes|
        ensures nodes[i].id == Some(r.ids[|g.ids| + i])
      {
        if i > 0 {
          assert nodes[i] == rest[i - 1];
        } else {
          assert r.ids[|g.ids|] == r.ids[..|h.ids|][|g.ids|];
        }
      }
    }
  }

  /** Both ends of a link record, which `addLink` receives with its payload. */
  function LinkOf<Id, D>(rec: LinkRecord<Id, D>): Link<Id, D>
    requires rec.fromId.Some? && rec.toId.Some?
  {
    Link(rec.fromId.value, rec.toId.value, rec.data)
  }

  /** The links the records describe, in stored order. */
  function LinksOf<Id, D>(links: seq<LinkRecord<Id, D>>): seq<Link<Id, D>>
    requires !MissingLinkEnd(links)
  {
    seq(|links|, j requires 0 <= j < |links| => LinkOf(links[j]))
  }

  /** Records after the first miss no end when none of them does. */
  lemma NoMissingLinkEndInTail<Id, D>(links: seq<LinkRecord<Id, D>>)
    requires |links| > 0 && !MissingLinkEnd(links)
    ensures links[0].fromId.Some? && links[0].toId.Some? && !MissingLinkEnd(links[1..])
  {
  }

  /**
   * The link loop appends one link per record, in stored order, keeps
   * every existing node and its payload, and creates nodes only for ends
   * that are missing: when every end is already a node, only links change.
   */
  lemma {:induction false} LoadLinksGraph<Id, D>(g: GraphValue<Id, D>, links: seq<LinkRecord<Id, D>>)
    requires !MissingLinkEnd(links)
    ensures LoadLinks(g, links).Success?
    ensures var r := LoadLinks(g, links).value;
      && r.links == g.links + LinksOf(links)
      && (forall k :: k in g.data ==> k in r.data && r.data[k] == g.data[k])
      && |g.ids| <= |r.ids| && r.ids[..|g.ids|] == g.ids
      && ((forall j :: 0 <= j < |links| ==> links[j].fromId.value in g.data && links[j].toId.value in g.data) ==>
            r.ids == g.ids && r.data == g.data)
    decreases |links|
  {
    if |links| > 0 {
      var rec, rest := links[0], links[1..];
      var h := WithLink(g, rec.fromId.value, rec.toId.value, rec.data);
      WithLinkSpec(g, rec.fromId.value, rec.toId.value, rec.data);
      NoMissingLinkEndInTail(links);
      LoadLinksGraph(h, rest);
      var r := LoadLinks(g, links).value;
      assert LinksOf(links) == [LinkOf(rec)] + LinksOf(rest);
      assert r.ids[..|g.ids|] == r.ids[..|h.ids|][..|g.ids|];
      if forall j :: 0 <= j < |links| ==> links[j].fromId.value in g.data && links[j].toId.value in g.data {
        assert rec.fromId.value in g.data && rec.toId.value in g.data;
        assert h.ids == g.ids && h.data == g.data;
        forall j | 0 <= j < |rest|
          ensures rest[j].fromId.value in h.data && rest[j].toId.value in h.data
        {
          assert rest[j] == links[j + 1];
        }
      }
    }
  }

  /** The loaded links are the link records, in stored order, whatever the node records say. */
  lemma LoadedLinks<Id, D>(st: Stored<Id, D>)
    requires st.nodes.Some? && st.links.Some?
    requires !MissingNodeId(st.nodes.value) && !MissingLinkEnd(st.links.value)
    ensures Loaded(Text(st)).Success? && Loaded(Text(st)).value.links == LinksOf(st.links.value)
  {
    assert LoadNodes(Empty(), st.nodes.value).value.links == [] by {
      LoadNodesData(Empty(), st.nodes.value);
    }
    LoadLinksGraph(LoadNodes(Empty(), st.nodes.value).value, st.links.value);
  }

  /**
   * Nodes are added before links: each node keeps the payload of its last
   * node record, even when links touch it later.
   */
  lemma LoadedPayloads<Id, D>(st: Stored<Id, D>)
    requires st.nodes.Some? && st.links.Some?
    requires !MissingNodeId(st.nodes.value) && !MissingLinkEnd(st.links.value)
    ensures Loaded(Text(st)).Success?
    ensures var g, nodes := Loaded(Text(st)).value, st.nodes.value;
      forall i :: 0 <= i < |nodes| && LastWithId(nodes, i) ==>
        nodes[i].id.value in g.data && g.data[nodes[i].id.value] == nodes[i].data
  {
    var nodes := st.nodes.value;
    LoadNodesData(Empty(), nodes);
    var h := LoadNodes(Empty(), nodes).value;
    LoadLinksGraph(h, st.links.value);
    forall i | 0 <= i < |nodes| && LastWithId(nodes, i)
      ensures nodes[i].id.value in h.data
    {
      assert nodes[i].id.value in RecordIds(nodes);
    }
  }

  /**
   * Nodes are added before links: node records with distinct ids give the
   * first nodes of the loaded graph, in stored order; ends that only links
   * name come after them.
   */
  lemma LoadedNodeOrder<Id, D>(st: Stored<Id, D>)
    requires st.nodes.Some? && st.links.Some?
    requires !MissingNodeId(st.nodes.value) && !MissingLinkEnd(st.links.value)
    requires forall i, j :: 0 <= i < j < |st.nodes.value| ==> st.nodes.value[i].id != st.nodes.value[j].id
    ensures Loaded(Text(st)).Success?
    ensures var g, nodes := Loaded(Text(st)).value, st.nodes.value;
      |nodes| <= |g.ids| && forall i :: 0 <= i < |nodes| ==> nodes[i].id == Some(g.ids[i])
  {
    var nodes := st.nodes.value;
    LoadNodesOrder(Empty(), nodes);
    var h := LoadNodes(Empty(), nodes).value;
    LoadLinksGraph(h, st.links.value);
    var g := Loaded(Text(st)).value;
    forall i | 0 <= i < |nodes|
      ensures nodes[i].id == Some(g.ids[i])
    {
      assert g.ids[i] == g.ids[..|h.ids|][i];
    }
  }

  // Save, then load

  /** The saved node records carry the graph's ids, all present and, in a well-formed graph, distinct. */
  lemma SavedNodeIds<Id, D>(g: GraphValue<Id, D>)
    requires WellFormed(g)
    ensures var nodes := SavedNodes(g);
      && |nodes| == |g.ids| && !MissingNodeId(nodes)
      && (forall i :: 0 <= i < |nodes| ==> nodes[i].id == Some(g.ids[i]) && nodes[i].data == DataOf(g, g.ids[i]))
      && (forall i, j :: 0 <= i < j < |nodes| ==> nodes[i].id != nodes[j].id)
  {
    SavedRecords(g);
    var nodes := SavedNodes(g);
    forall i, j | 0 <= i < j < |nodes|
      ensures nodes[i].id != nodes[j].id
    {
      assert nodes[i].id == Some(g.ids[i]) && nodes[j].id == Some(g.ids[j]);
    }
  }

  /** The node loop over the saved node records recreates the graph's nodes in order. */
  lemma SavedNodesLoadIds<Id, D>(g: GraphValue<Id, D>)
    requires WellFormed(g)
    ensures LoadNodes(Empty(), SavedNodes(g)).Success? && LoadNodes(Empty(), SavedNodes(g)).value.ids == g.ids
  {
    SavedNodeIds(g);
    LoadNodesOrder(Empty(), SavedNodes(g));
  }

  /** The node loop over the saved node records gives every node of the graph its payload. */
  lemma SavedNodesKeepPayloads<Id, D>(g: GraphValue<Id, D>)
    requires WellFormed(g)
    ensures LoadNodes(Empty(), SavedNodes(g)).Success?
    ensures forall k :: k in g.data ==>
      k in LoadNodes(Empty(), SavedNodes(g)).value.data && LoadNodes(Empty(), SavedNodes(g)).value.data[k] == g.data[k]
  {
    var nodes := SavedNodes(g);
    SavedNodeIds(g);
    LoadNodesData(Empty(), nodes);
    var h := LoadNodes(Empty(), nodes).value;
    forall k | k in g.data
      ensures k in h.data && h.data[k] == g.data[k]
    {
      var i :| 0 <= i < |g.ids| && g.ids[i] == k;
      assert LastWithId(nodes, i);
      assert k in RecordIds(nodes);
    }
  }

  /** The node loop over the saved node records creates only the graph's nodes, and no link. */
  lemma SavedNodesOnly<Id, D>(g: GraphValue<Id, D>)
    requires WellFormed(g)
    ensures LoadNodes(Empty(), SavedNodes(g)).Success?
    ensures LoadNodes(Empty(), SavedNodes(g)).value.links == []
    ensures forall k :: k in LoadNodes(Empty(), SavedNodes(g)).value.data ==> k in g.data
  {
    var nodes := SavedNodes(g);
    SavedNodeIds(g);
    LoadNodesData(Empty(), nodes);
    var h := LoadNodes(Empty(), nodes).value;
    forall k | k in h.data
      ensures k in g.data
    {
      var i :| 0 <= i < |nodes| && nodes[i].id.Some? && nodes[i].id.value == k;
    }
  }

  /** Two maps with the same keys and the same value at each key are equal. */
  lemma SameEntries<K, V>(m: map<K, V>, n: map<K, V>)
    requires forall k :: k in n ==> k in m && m[k] == n[k]
    requires forall k :: k in m ==> k in n
    ensures m == n
  {
  }

  /** The saved link records have both ends and describe the graph's links, in order. */
  lemma SavedLinksOf<Id, D>(g: GraphValue<Id, D>)
    ensures !MissingLinkEnd(SavedLinks(g)) && LinksOf(SavedLinks(g)) == g.links
  {
    var links := SavedLinks(g);
    assert forall j :: 0 <= j < |links| ==> links[j] == TransformLinkForSave(g.links[j]);
    assert |LinksOf(links)| == |g.links|;
    forall j | 0 <= j < |g.links|
      ensures LinksOf(links)[j] == g.links[j]
    {
    }
  }

  /** In a well-formed graph, both ends of every saved link record are nodes. */
  lemma SavedLinkEnds<Id, D>(g: GraphValue<Id, D>)
    requires WellFormed(g)
    ensures forall j :: 0 <= j < |SavedLinks(g)| ==>
      && SavedLinks(g)[j].fromId.Some? && SavedLinks(g)[j].fromId.value in g.data
      && SavedLinks(g)[j].toId.Some? && SavedLinks(g)[j].toId.value in g.data
  {
    SavedRecords(g);
  }

  /** The node loop over the saved node records rebuilds the graph's nodes, in order and with their payloads, and no link. */
  lemma SavedNodesLoad<Id, D>(g: GraphValue<Id, D>)
    requires WellFormed(g)
    ensures LoadNodes(Empty(), SavedNodes(g)) == Success(GraphValue(g.ids, g.data, []))
  {
    SavedNodesLoadIds(g);
    SavedNodesKeepPayloads(g);
    SavedNodesOnly(g);
    var h := LoadNodes(Empty(), SavedNodes(g)).value;
    SameEntries(h.data, g.data);
  }

  /** Loading what `save` stored gives back a well-formed graph exactly: same nodes in the same order, same payloads, same links. */
  lemma SaveLoadRoundTrip<Id, D>(g: GraphValue<Id, D>)
    requires WellFormed(g)
    ensures Loaded(Text(Saved(g))) == Success(g)
  {
    SavedNodesLoad(g);
    var h := GraphValue(g.ids, g.data, []);
    SavedLinksOf(g);
    SavedLinkEnds(g);
    LoadLinksGraph(h, SavedLinks(g));
    assert [] + g.links == g.links;
  }

  /**
   * Saving the graph with the single link 1 -> 2 stores two nodes and one
   * link from 1 to 2; loading that gives both nodes, two in all, and the
   * link, one in all.
   */
  lemma SaveLoadOneLink()
    ensures var g := WithLink(Empty<int, string>(), 1, 2, None);
      && Saved(g).nodes.Some? && |Saved(g).nodes.value| == 2
      && Saved(g).links.Some? && |Saved(g).links.value| == 1
      && Saved(g).links.value[0].fromId == Some(1) && Saved(g).links.value[0].toId == Some(2)
      && Loaded(Text(Saved(g))).Success?
      && var h := Loaded(Text(Saved(g))).value;
      && GetNode(h, 1).Some? && GetNode(h, 2).Some? && NodesCount(h) == 2
      && HasLink(h, 1, 2) && LinksCount(h) == 1
  {
    var g := WithLink(Empty<int, string>(), 1, 2, None);
    assert g == GraphValue([1, 2], map[1 := None, 2 := None], [Link(1, 2, None)]);
    WithLinkSpec(Empty<int, string>(), 1, 2, None);
    SavedRecords(g);
    SaveLoadRoundTrip(g);
    assert g.links[0].fromId == 1 && g.links[0].toId == 2;
  }
}
