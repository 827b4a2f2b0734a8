/**
 * The graph the serializers read and build. The graph store itself is a
 * separate library; it is described here only through the operations the
 * serializers call: `addNode`, `addLink`, `forEachNode`, `forEachLink`,
 * `getNode`, `hasLink` and the two counts.
 */
module Graphs {
  import opened Js

  /** A directed link with an optional payload. */
  datatype Link<Id, D> = Link(fromId: Id, toId: Id, data: Option<D>)

  /** A node as `forEachNode` hands it out: its id and optional payload. */
  datatype Node<Id, D> = Node(id: Id, data: Option<D>)

  /**
   * The state of a graph: node ids in the order the nodes were created
   * (the order `forEachNode` visits them), each node's payload, and the
   * links in the order they were added (the order `forEachLink` visits them).
   */
  datatype GraphValue<Id(==), D> = GraphValue(ids: seq<Id>, data: map<Id, Option<D>>, links: seq<Link<Id, D>>)

  /** Every node listed once, the listed nodes are exactly those with a payload entry, and links join existing nodes. */
  ghost predicate WellFormed<Id, D>(g: GraphValue<Id, D>)
  {
    && (forall i, j :: 0 <= i < j < |g.ids| ==> g.ids[i] != g.ids[j])
    && (forall i :: 0 <= i < |g.ids| ==> g.ids[i] in g.data)
    && (forall id :: id in g.data ==> id in g.ids)
    && (forall i :: 0 <= i < |g.links| ==> g.links[i].fromId in g.data && g.links[i].toId in g.data)
  }

  /** A freshly created graph. */
  function Empty<Id(==), D>(): (g: GraphValue<Id, D>)
    ensures WellFormed(g) && |g.ids| == 0 && |g.data| == 0 && |g.links| == 0
  {
    GraphValue([], map[], [])
  }

  /**
   * `addNode(id, data)`: the node is created if it is missing and its
   * payload is set in every case, so an existing node's payload is
   * overwritten (by `undefined` too); no other node and no link changes.
   */
  function WithNode<Id(==), D>(g: GraphValue<Id, D>, id: Id, data: Option<D>): GraphValue<Id, D>
  {
    GraphValue(if id in g.data then g.ids else g.ids + [id], g.data[id := data], g.links)
  }

  lemma WithNodeSpec<Id, D>(g: GraphValue<Id, D>, id: Id, data: Option<D>)
    ensures var r := WithNode(g, id, data);
      && id in r.data && r.data[id] == data
      && r.data.Keys == g.data.Keys + {id}
      && (forall k :: k != id && k in g.data ==> r.data[k] == g.data[k])
      && |g.ids| <= |r.ids| && r.ids[..|g.ids|] == g.ids
      && r.links == g.links
      && (WellFormed(g) ==> WellFormed(r) && |r.ids| == |g.ids| + (if id in g.data then 0 else 1))
  {
  }

  /** The graph with node `id` present: created with no payload when missing, untouched otherwise. */
  function Touch<Id(==), D>(g: GraphValue<Id, D>, id: Id): GraphValue<Id, D>
  {
    if id in g.data then g else WithNode(g, id, None)
  }

  lemma TouchSpec<Id, D>(g: GraphValue<Id, D>, id: Id)
    ensures var r := Touch(g, id);
      && r.data.Keys == g.data.Keys + {id}
      && (forall k :: k in g.data ==> r.data[k] == g.data[k])
      && (id !in g.data ==> r.data[id] == None)
      && |g.ids| <= |r.ids| && r.ids[..|g.ids|] == g.ids
      && r.links == g.links
      && (WellFormed(g) ==> WellFormed(r))
  {
    WithNodeSpec(g, id, None);
  }

  /**
   * `addLink(fromId, toId, data)`: a missing endpoint is created with no
   * payload (the source end first), an existing node keeps its payload, and
   * the link is appended: links are never merged, so parallel links repeat.
   */
  function WithLink<Id(==), D>(g: GraphValue<Id, D>, fromId: Id, toId: Id, data: Option<D>): GraphValue<Id, D>
  {
    var touched := Touch(Touch(g, fromId), toId);
    touched.(links := touched.links + [Link(fromId, toId, data)])
  }

  lemma WithLinkSpec<Id, D>(g: GraphValue<Id, D>, fromId: Id, toId: Id, data: Option<D>)
    ensures var r := WithLink(g, fromId, toId, data);
      && r.links == g.links + [Link(fromId, toId, data)]
      && r.data.Keys == g.data.Keys + {fromId, toId}
      && (forall k :: k in g.data ==> r.data[k] == g.data[k])
      && (forall k :: k in r.data && k !in g.data ==> r.data[k] == None)
      && |g.ids| <= |r.ids| && r.ids[..|g.ids|] == g.ids
      && r.ids == g.ids + (if fromId in g.data then [] else [fromId])
                        + (if toId in g.data || toId == fromId then [] else [toId])
      && (WellFormed(g) ==> WellFormed(r))
  {
    var once := Touch(g, fromId);
    var touched := Touch(once, toId);
    TouchSpec(g, fromId);
    TouchSpec(once, toId);
    assert touched.ids[..|once.ids|][..|g.ids|] == once.ids[..|g.ids|];
    AppendLinkKeepsWellFormed(touched, Link(fromId, toId, data));
  }

  /** Appending a link between existing nodes keeps a graph well formed. */
  lemma AppendLinkKeepsWellFormed<Id, D>(g: GraphValue<Id, D>, link: Link<Id, D>)
    ensures WellFormed(g) && link.fromId in g.data && link.toId in g.data ==> WellFormed(g.(links := g.links + [link]))
  {
    if !(WellFormed(g) && link.fromId in g.data && link.toId in g.data) {
      return;
    }
    var r := g.(links := g.links + [link]);
    forall i | 0 <= i < |r.links|
      ensures r.links[i].fromId in r.data && r.links[i].toId in r.data
    {
      if i < |g.links| {
        assert r.links[i] == g.links[i];
      }
    }
  }

  /** `getNodesCount()` */
  function NodesCount<Id(==), D>(g: GraphValue<Id, D>): nat
  {
    |g.ids|
  }

  /** `getLinksCount()` */
  function LinksCount<Id(==), D>(g: GraphValue<Id, D>): nat
  {
    |g.links|
  }

  /** `hasLink(fromId, toId)` */
  predicate HasLink<Id(==), D>(g: GraphValue<Id, D>, fromId: Id, toId: Id)
  {
    exists i :: 0 <= i < |g.links| && g.links[i].fromId == fromId && g.links[i].toId == toId
  }

  /** `getNode(id)`: the node, or `undefined` when there is none. */
  function GetNode<Id(==), D>(g: GraphValue<Id, D>, id: Id): Option<Node<Id, D>>
  {
    if id in g.data then Some(Node(id, g.data[id])) else None
  }

  /** The payload of node `id`, `undefined` when there is no such node. */
  function DataOf<Id(==), D>(g: GraphValue<Id, D>, id: Id): Option<D>
  {
    if id in g.data then g.data[id] else None
  }

  /** The nodes in the order `forEachNode` visits them. */
  function Nodes<Id(==), D>(g: GraphValue<Id, D>): seq<Node<Id, D>>
  {
    seq(|g.ids|, i requires 0 <= i < |g.ids| => Node(g.ids[i], DataOf(g, g.ids[i])))
  }

  /** A graph object, changed in place by `addNode` and `addLink`. */
  class Graph<Id(==), D> {
    var ids: seq<Id>
    var data: map<Id, Option<D>>
    var links: seq<Link<Id, D>>

    function Value(): GraphValue<Id, D>
      reads this
    {
      GraphValue(ids, data, links)
    }

    ghost predicate Valid()
      reads this
    {
      WellFormed(Value())
    }

    constructor ()
      ensures Valid() && Value() == Empty()
    {
      ids, data, links := [], map[], [];
    }

    method AddNode(id: Id, d: Option<D>)
      requires Valid()
      modifies this
      ensures Valid() && Value() == WithNode(old(Value()), id, d)
    {
      WithNodeSpec(Value(), id, d);
      if id !in data {
        ids := ids + [id];
      }
      data := data[id := d];
    }

    method AddLink(fromId: Id, toId: Id, d: Option<D>)
      requires Valid()
      modifies this
      ensures Valid() && Value() == WithLink(old(Value()), fromId, toId, d)
    {
      ghost var before := Value();
      if fromId !in data {
        AddNode(fromId, None);
      }
      assert Value() == Touch(before, fromId);
      ghost var once := Value();
      if toId !in data {
        AddNode(toId, None);
      }
      assert Value() == Touch(once, toId);
      assert fromId in data && toId in data;
      var link := Link(fromId, toId, d);
      AppendLinkKeepsWellFormed(Value(), link);
      links := links + [link];
    }
  }
}
