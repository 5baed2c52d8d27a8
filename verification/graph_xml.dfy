/**
 * The graph's XML document at the level of reader/writer events.
 *
 * `Fold` is the reference for `load_from_xml`: one `Step` per event, with the
 * open node, port and link and the properties gathered for them carried in a
 * `LoadState`. `DocumentEvents` is what `render_xml` writes for a graph value,
 * given the order in which it happened to visit each map.
 */
module GraphXml {
  import opened Wrappers
  import opened Text
  import opened Property
  import opened Port
  import opened Node
  import opened GraphData

  const GRAPHVIEW_XML_VERSION: string := "0.1"

  /**
   * One event of the XML reader: an element opens with its attributes or
   * closes, the reader reports a malformed document, or anything else
   * (declaration, text, comments) passes by.
   */
  datatype XmlEvent =
    | StartElement(name: string, attributes: map<string, string>)
    | EndElement(name: string)
    | ReadError
    | OtherEvent

  /**
   * `Reading` while events are consumed; `Stopped` after a reader error (the
   * loop breaks and the load still returns `Ok`); `Panicked` when a required
   * attribute is missing or unparsable, or a port faces neither way, where the
   * source's `expect`/`unwrap`/`panic!` aborts.
   */
  datatype LoadStatus = Reading | Stopped | Panicked

  datatype LoadState = LoadState(
    graph: GraphValue,
    nodeCounter: nat, portCounter: nat, linkCounter: nat,
    currentNode: Option<NodeValue>, nodeProps: Properties,
    currentPort: Option<PortValue>, portProps: Properties,
    currentLink: Option<LinkRecord>,
    status: LoadStatus)

  function Max(a: nat, b: nat): nat
  {
    if a < b then b else a
  }

  /** The state right after `clear()`: no nodes, the surviving links, counters at zero, nothing open. */
  function LoadStart(id: nat, links: map<nat, LinkRecord>): LoadState
  {
    LoadState(GraphValue(id, map[], links), 0, 0, 0, None, map[], None, map[], None, Reading)
  }

  function AttrOr(attrs: map<string, string>, key: string, default: string): string
  {
    if key in attrs then attrs[key] else default
  }

  /** A required `u32` attribute; `None` where the source's `expect`/`unwrap` panics. */
  function RequiredU32(attrs: map<string, string>, key: string): Option<nat>
  {
    if key in attrs then ParseU32(attrs[key]) else None
  }

  /** The step stores nothing and moves no counter; a node it opens has no ports yet. */
  predicate StoresNothing(s: LoadState, t: LoadState)
  {
    t.graph.nodes == s.graph.nodes && t.graph.links == s.graph.links
    && t.nodeCounter == s.nodeCounter && t.portCounter == s.portCounter && t.linkCounter == s.linkCounter
    && (t.currentNode.Some? ==> t.currentNode == s.currentNode || t.currentNode.value.ports == map[])
  }

  function StartGraph(s: LoadState, attrs: map<string, string>): (r: LoadState)
    ensures StoresNothing(s, r)
  {
    if "id" !in attrs then s
    else
      match ParseU32(attrs["id"])
      case None => s.(status := Panicked)
      case Some(id) => s.(graph := s.graph.(id := id))
  }

  function StartNode(s: LoadState, attrs: map<string, string>): (r: LoadState)
    ensures StoresNothing(s, r)
  {
    var id := RequiredU32(attrs, "id");
    var light := ParseBool(AttrOr(attrs, "light", "false"));
    if id.None? || "name" !in attrs || "type" !in attrs || light.None? then s.(status := Panicked)
    else
      s.(currentNode := Some(NodeValue(id.value, attrs["name"], TypeFromStr(attrs["type"]), light.value, map[], map[])))
  }

  function StartProperty(s: LoadState, attrs: map<string, string>): (r: LoadState)
    ensures StoresNothing(s, r)
  {
    if "name" !in attrs || "value" !in attrs then s.(status := Panicked)
    else if s.currentPort.Some? then s.(portProps := s.portProps[attrs["name"] := attrs["value"]])
    else if s.currentNode.Some? then s.(nodeProps := s.nodeProps[attrs["name"] := attrs["value"]])
    else s
  }

  function StartPort(s: LoadState, attrs: map<string, string>): (r: LoadState)
    ensures StoresNothing(s, r)
  {
    var id := RequiredU32(attrs, "id");
    if id.None? || "name" !in attrs || "direction" !in attrs then s.(status := Panicked)
    else
      var presence := PresenceFromStr(AttrOr(attrs, "presence", PresenceName(Always)));
      s.(currentPort := Some(PortValue(id.value, attrs["name"], DirectionFromStr(attrs["direction"]), presence, map[])))
  }

  function StartLink(s: LoadState, attrs: map<string, string>): (r: LoadState)
    ensures StoresNothing(s, r)
  {
    var id := RequiredU32(attrs, "id");
    var nodeFrom := RequiredU32(attrs, "node_from");
    var nodeTo := RequiredU32(attrs, "node_to");
    var portFrom := RequiredU32(attrs, "port_from");
    var portTo := RequiredU32(attrs, "port_to");
    var active := if "active" in attrs then ParseBool(attrs["active"]) else None;
    if id.None? || nodeFrom.None? || nodeTo.None? || portFrom.None? || portTo.None? || active.None? then
      s.(status := Panicked)
    else
      var link := LinkRecord(id.value, nodeFrom.value, nodeTo.value, portFrom.value, portTo.value,
                             AttrOr(attrs, "name", ""), active.value, false);
      s.(currentLink := Some(link))
  }

  /** Closing a node applies its gathered properties and stores it under its id. */
  function EndNode(s: LoadState): LoadState
  {
    match s.currentNode
    case None => s
    case Some(n) =>
      var node := n.(properties := Updated(n.properties, s.nodeProps));
      s.(graph := s.graph.(nodes := s.graph.nodes[node.id := node]),
         nodeProps := map[], nodeCounter := Max(s.nodeCounter, node.id), currentNode := None)
  }

  /**
   * Closing a port inside an open node applies its gathered properties and
   * adds it to that node; outside a node the port is dropped and its gathered
   * properties are kept for the next port.
   */
  function EndPort(s: LoadState): LoadState
  {
    if s.currentPort.Some? && s.currentNode.Some? then
      var p := s.currentPort.value;
      var port := p.(properties := Updated(p.properties, s.portProps));
      if port.direction != Input && port.direction != Output then s.(status := Panicked)
      else
        var n := s.currentNode.value;
        s.(currentNode := Some(n.(ports := n.ports[port.id := port])), portProps := map[],
           portCounter := Max(s.portCounter, port.id), currentPort := None)
    else s.(currentPort := None)
  }

  /** Closing a link offers it to `add_link`, which refuses a duplicate port pair. */
  function EndLink(s: LoadState): LoadState
  {
    match s.currentLink
    case None => s
    case Some(l) =>
      s.(graph := s.graph.(links := WithLink(s.graph.links, l)),
         linkCounter := Max(s.linkCounter, l.id), currentLink := None)
  }

  /** One iteration of the reading loop. */
  function Step(s: LoadState, e: XmlEvent): LoadState
  {
    if s.status != Reading then s
    else
      match e
      case StartElement(name, attrs) =>
        if name == "Graph" then StartGraph(s, attrs)
        else if name == "Node" then StartNode(s, attrs)
        else if name == "Property" then StartProperty(s, attrs)
        else if name == "Port" then StartPort(s, attrs)
        else if name == "Link" then StartLink(s, attrs)
        else s
      case EndElement(name) =>
        if name == "Node" then EndNode(s)
        else if name == "Port" then EndPort(s)
        else if name == "Link" then EndLink(s)
        else s
      case ReadError => s.(status := Stopped)
      case OtherEvent => s
  }

  /** The state after reading `events` in order. */
  function Fold(s: LoadState, events: seq<XmlEvent>): LoadState
  {
    if events == [] then s else Step(Fold(s, events[..|events| - 1]), events[|events| - 1])
  }

  /** Reading a document in two pieces is reading it whole. */
  lemma {:induction false} FoldAppend(s: LoadState, a: seq<XmlEvent>, b: seq<XmlEvent>)
    ensures Fold(s, a + b) == Fold(Fold(s, a), b)
    decreases |b|
  {
    if b == [] {
      assert a + b == a;
    } else {
      assert (a + b)[..|a + b| - 1] == a + b[..|b| - 1];
      FoldAppend(s, a, b[..|b| - 1]);
    }
  }

  /** Once reading has stopped or panicked, later events change nothing. */
  lemma {:induction false} FoldAfterEnd(s: LoadState, events: seq<XmlEvent>)
    requires s.status != Reading
    ensures Fold(s, events) == s
    decreases |events|
  {
    if events != [] {
      FoldAfterEnd(s, events[..|events| - 1]);
    }
  }

  /** Every stored id is at most the matching counter, the open node's ports included. */
  predicate CountersCover(s: LoadState)
  {
    (forall k :: k in s.graph.nodes ==> k <= s.nodeCounter)
    && (forall k :: k in s.graph.links ==> k <= s.linkCounter)
    && (forall k, p :: k in s.graph.nodes && p in s.graph.nodes[k].ports ==> p <= s.portCounter)
    && (s.currentNode.Some? ==> forall p :: p in s.currentNode.value.ports ==> p <= s.portCounter)
  }

  lemma EndNodeKeepsCountersCover(s: LoadState)
    requires CountersCover(s)
    ensures CountersCover(EndNode(s))
  {
  }

  lemma EndPortKeepsCountersCover(s: LoadState)
    requires CountersCover(s)
    ensures CountersCover(EndPort(s))
  {
  }

  lemma EndLinkKeepsCountersCover(s: LoadState)
    requires CountersCover(s)
    ensures CountersCover(EndLink(s))
  {
    if s.currentLink.Some? {
      var l := s.currentLink.value;
      var links := WithLink(s.graph.links, l);
      assert forall k :: k in links ==> k in s.graph.links || k == l.id;
    }
  }

  /** A step that stores nothing keeps the counters covering. */
  lemma StoredNothingKeepsCountersCover(s: LoadState, t: LoadState)
    requires CountersCover(s) && StoresNothing(s, t)
    ensures CountersCover(t)
  {
  }

  lemma StepKeepsCountersCover(s: LoadState, e: XmlEvent)
    requires CountersCover(s)
    ensures CountersCover(Step(s, e))
  {
    if s.status == Reading {
      match e
      case StartElement(name, attrs) =>
        StoredNothingKeepsCountersCover(s, Step(s, e));
      case EndElement(name) =>
        if name == "Node" {
          EndNodeKeepsCountersCover(s);
        } else if name == "Port" {
          EndPortKeepsCountersCover(s);
        } else if name == "Link" {
          EndLinkKeepsCountersCover(s);
        }
      case ReadError =>
      case OtherEvent =>
    }
  }

  /**
   * Loading keeps every id at or below its counter, so the ids handed out
   * after a load (`next_*_id`) are new.
   */
  lemma {:induction false} FoldKeepsCountersCover(s: LoadState, events: seq<XmlEvent>)
    requires CountersCover(s)
    ensures CountersCover(Fold(s, events))
    decreases |events|
  {
    if events != [] {
      FoldKeepsCountersCover(s, events[..|events| - 1]);
      StepKeepsCountersCover(Fold(s, events[..|events| - 1]), events[|events| - 1]);
    }
  }

  // ---------------------------------------------------------------------
  // What render_xml writes.

  function PropertyAttributes(name: string, value: string): map<string, string>
  {
    map["name" := name, "value" := value]
  }

  function PortAttributes(p: PortValue): map<string, string>
  {
    map["name" := p.name, "id" := NatToString(p.id), "direction" := DirectionName(p.direction),
        "presence" := PresenceName(p.presence)]
  }

  function NodeAttributes(n: NodeValue): map<string, string>
  {
    map["name" := n.name, "id" := NatToString(n.id), "type" := TypeName(n.nodeType),
        "light" := BoolToString(n.light)]
  }

  function LinkAttributes(l: LinkRecord): map<string, string>
  {
    map["id" := NatToString(l.id), "node_from" := NatToString(l.nodeFrom), "node_to" := NatToString(l.nodeTo),
        "port_from" := NatToString(l.portFrom), "port_to" := NatToString(l.portTo), "name" := l.name,
        "active" := BoolToString(l.active)]
  }

  function GraphAttributes(g: GraphValue): map<string, string>
  {
    map["id" := NatToString(g.id), "version" := GRAPHVIEW_XML_VERSION]
  }

  /** `keys` lists every element of `s` exactly once. */
  predicate Enumerates<K(!new)>(keys: seq<K>, s: set<K>)
  {
    (forall i, j :: 0 <= i < j < |keys| ==> keys[i] != keys[j])
    && (forall k :: k in keys ==> k in s) && (forall k :: k in s ==> k in keys)
  }

  /** Part way through listing `all`: `keys` lists, once each, what is no longer `pending`. */
  predicate Listing<K(!new)>(keys: seq<K>, pending: set<K>, all: set<K>)
  {
    pending <= all
    && (forall k :: k in keys ==> k in all && k !in pending)
    && (forall k :: k in all ==> k in pending || k in keys)
    && (forall i, j :: 0 <= i < j < |keys| ==> keys[i] != keys[j])
  }

  /** Listing one more pending key. */
  lemma ListingStep<K(!new)>(keys: seq<K>, pending: set<K>, all: set<K>, k: K)
    requires Listing(keys, pending, all) && k in pending
    ensures Listing(keys + [k], pending - {k}, all)
  {
  }

  /** A listing with nothing pending enumerates the whole set. */
  lemma ListingDone<K(!new)>(keys: seq<K>, all: set<K>)
    requires Listing(keys, {}, all)
    ensures Enumerates(keys, all)
  {
  }

  /** The entries of `src` under the listed keys. */
  function Picked<K(!new), V>(src: map<K, V>, keys: seq<K>): (m: map<K, V>)
    requires forall k :: k in keys ==> k in src
    ensures forall k :: k in m <==> k in keys
    ensures forall k :: k in m ==> m[k] == src[k]
  {
    map k | k in keys :: src[k]
  }

  /** Taking one more listed key from `src` is one more map update. */
  lemma MergeSnoc<K(!new), V>(base: map<K, V>, src: map<K, V>, keys: seq<K>)
    requires keys != [] && forall k :: k in keys ==> k in src
    ensures var last := keys[|keys| - 1];
      (base + Picked(src, keys[..|keys| - 1]))[last := src[last]] == base + Picked(src, keys)
  {
    var last := keys[|keys| - 1];
    assert forall k :: k in keys <==> k in keys[..|keys| - 1] || k == last by {
      assert keys == keys[..|keys| - 1] + [last];
    }
  }

  /** Taking every key of `src` rebuilds `src`. */
  lemma MergeAll<K(!new), V>(base: map<K, V>, src: map<K, V>, keys: seq<K>)
    requires base == map[] && (forall k :: k in keys ==> k in src) && (forall k :: k in src ==> k in keys)
    ensures base + Picked(src, keys) == src
  {
  }

  /** One `Property` element per listed key. */
  function PropertyEvents(keys: seq<string>, props: Properties): seq<XmlEvent>
    requires forall k :: k in keys ==> k in props
  {
    if keys == [] then []
    else
      var k := keys[|keys| - 1];
      PropertyEvents(keys[..|keys| - 1], props)
        + [StartElement("Property", PropertyAttributes(k, props[k])), EndElement("Property")]
  }

  function PortEvents(p: PortValue, keys: seq<string>): seq<XmlEvent>
    requires forall k :: k in keys ==> k in p.properties
  {
    [StartElement("Port", PortAttributes(p))] + PropertyEvents(keys, p.properties) + [EndElement("Port")]
  }

  /**
   * The order in which a node's maps are iterated: its ports, each port's
   * properties and its own properties (by the XML writer here, by the
   * description generators of `Launch`).
   */
  datatype NodeOrder = NodeOrder(ports: seq<nat>, portProps: map<nat, seq<string>>, props: seq<string>)

  predicate NodeOrderFits(n: NodeValue, o: NodeOrder)
  {
    Enumerates(o.ports, n.ports.Keys)
    && (forall p :: p in n.ports ==> p in o.portProps && Enumerates(o.portProps[p], n.ports[p].properties.Keys))
    && Enumerates(o.props, n.properties.Keys)
  }

  /** The `Port` elements of the first `|ports|` visited ports. */
  function PortsEvents(n: NodeValue, ports: seq<nat>, portProps: map<nat, seq<string>>): seq<XmlEvent>
    requires forall p :: p in ports ==> p in n.ports && p in portProps
    requires forall p :: p in ports ==> forall k :: k in portProps[p] ==> k in n.ports[p].properties
  {
    if ports == [] then []
    else
      var p := ports[|ports| - 1];
      PortsEvents(n, ports[..|ports| - 1], portProps) + PortEvents(n.ports[p], portProps[p])
  }

  /** The `Port` elements depend only on the property orders of the listed ports. */
  lemma {:induction false} PortsEventsFrame(n: NodeValue, ports: seq<nat>, pp1: map<nat, seq<string>>, pp2: map<nat, seq<string>>)
    requires forall p :: p in ports ==> p in n.ports && p in pp1 && p in pp2 && pp1[p] == pp2[p]
    requires forall p :: p in ports ==> forall k :: k in pp1[p] ==> k in n.ports[p].properties
    ensures PortsEvents(n, ports, pp1) == PortsEvents(n, ports, pp2)
    decreases |ports|
  {
    if ports != [] {
      PortsEventsFrame(n, ports[..|ports| - 1], pp1, pp2);
    }
  }

  function NodeEvents(n: NodeValue, o: NodeOrder): seq<XmlEvent>
    requires NodeOrderFits(n, o)
  {
    [StartElement("Node", NodeAttributes(n))] + PortsEvents(n, o.ports, o.portProps)
      + PropertyEvents(o.props, n.properties) + [EndElement("Node")]
  }

  /** The order in which the graph's maps are iterated: nodes, each node's maps, links. */
  datatype DocumentOrder = DocumentOrder(nodes: seq<nat>, nodeOrders: map<nat, NodeOrder>, links: seq<nat>)

  predicate DocumentOrderFits(g: GraphValue, o: DocumentOrder)
  {
    Enumerates(o.nodes, g.nodes.Keys)
    && (forall k :: k in g.nodes ==> k in o.nodeOrders && NodeOrderFits(g.nodes[k], o.nodeOrders[k]))
    && Enumerates(o.links, g.links.Keys)
  }

  /** The keys of a set, each once, in the order the map happens to hold them. */
  method ListKeys<K(==,!new)>(s: set<K>) returns (keys: seq<K>)
    ensures Enumerates(keys, s)
  {
    keys := [];
    var pending := s;
    while pending != {}
      invariant Listing(keys, pending, s)
      decreases pending
    {
      var k :| k in pending;
      ListingStep(keys, pending, s, k);
      keys, pending := keys + [k], pending - {k};
    }
    ListingDone(keys, s);
  }

  /** An iteration order of one node's maps. */
  method NodeIterationOrder(n: NodeValue) returns (o: NodeOrder)
    ensures NodeOrderFits(n, o)
  {
    var ports := ListKeys(n.ports.Keys);
    var props := ListKeys(n.properties.Keys);
    var portProps: map<nat, seq<string>> := map[];
    for i := 0 to |ports|
      invariant forall p :: p in ports[..i] ==> p in portProps
      invariant forall p :: p in portProps ==> p in n.ports && Enumerates(portProps[p], n.ports[p].properties.Keys)
    {
      var keys := ListKeys(n.ports[ports[i]].properties.Keys);
      portProps := portProps[ports[i] := keys];
    }
    assert ports[..|ports|] == ports;
    o := NodeOrder(ports, portProps, props);
  }

  /** An iteration order of the graph's maps, as the hash maps of a run hold them. */
  method IterationOrder(g: GraphValue) returns (o: DocumentOrder)
    ensures DocumentOrderFits(g, o)
  {
    var nodes := ListKeys(g.nodes.Keys);
    var links := ListKeys(g.links.Keys);
    var orders: map<nat, NodeOrder> := map[];
    for i := 0 to |nodes|
      invariant forall k :: k in nodes[..i] ==> k in orders
      invariant forall k :: k in orders ==> k in g.nodes && NodeOrderFits(g.nodes[k], orders[k])
    {
      var no := NodeIterationOrder(g.nodes[nodes[i]]);
      orders := orders[nodes[i] := no];
    }
    assert nodes[..|nodes|] == nodes;
    o := DocumentOrder(nodes, orders, links);
  }

  function NodesEvents(g: GraphValue, nodes: seq<nat>, orders: map<nat, NodeOrder>): seq<XmlEvent>
    requires forall k :: k in nodes ==> k in g.nodes && k in orders && NodeOrderFits(g.nodes[k], orders[k])
  {
    if nodes == [] then []
    else
      var k := nodes[|nodes| - 1];
      NodesEvents(g, nodes[..|nodes| - 1], orders) + NodeEvents(g.nodes[k], orders[k])
  }

  /** The `Node` elements depend only on the orders of the listed nodes. */
  lemma {:induction false} NodesEventsFrame(g: GraphValue, nodes: seq<nat>, o1: map<nat, NodeOrder>, o2: map<nat, NodeOrder>)
    requires forall k :: k in nodes ==> k in g.nodes && k in o1 && k in o2 && o1[k] == o2[k]
    requires forall k :: k in nodes ==> NodeOrderFits(g.nodes[k], o1[k])
    ensures NodesEvents(g, nodes, o1) == NodesEvents(g, nodes, o2)
    decreases |nodes|
  {
    if nodes != [] {
      NodesEventsFrame(g, nodes[..|nodes| - 1], o1, o2);
    }
  }

  function LinksEvents(links: map<nat, LinkRecord>, keys: seq<nat>): seq<XmlEvent>
    requires forall k :: k in keys ==> k in links
  {
    if keys == [] then []
    else
      var k := keys[|keys| - 1];
      LinksEvents(links, keys[..|keys| - 1]) + [StartElement("Link", LinkAttributes(links[k])), EndElement("Link")]
  }

  /** The whole document `render_xml` writes. */
  function DocumentEvents(g: GraphValue, o: DocumentOrder): seq<XmlEvent>
    requires DocumentOrderFits(g, o)
  {
    [StartElement("Graph", GraphAttributes(g))] + NodesEvents(g, o.nodes, o.nodeOrders)
      + LinksEvents(g.links, o.links) + [EndElement("Graph")]
  }

  // ---------------------------------------------------------------------
  // Reading back what was written.

  /** What a graph must satisfy to survive a save and a load. */
  predicate PortSaveable(p: PortValue)
  {
    p.id <= U32_MAX && (p.direction == Input || p.direction == Output) && NoEmptyValues(p.properties)
  }

  predicate NodeSaveable(n: NodeValue)
  {
    n.id <= U32_MAX && NoEmptyValues(n.properties)
    && forall p :: p in n.ports ==> n.ports[p].id == p && PortSaveable(n.ports[p])
  }

  predicate LinkSaveable(l: LinkRecord)
  {
    l.id <= U32_MAX && l.nodeFrom <= U32_MAX && l.nodeTo <= U32_MAX
    && l.portFrom <= U32_MAX && l.portTo <= U32_MAX && !l.selected
  }

  predicate Saveable(g: GraphValue)
  {
    g.id <= U32_MAX
    && (forall k :: k in g.nodes ==> g.nodes[k].id == k && NodeSaveable(g.nodes[k]))
    && LinksKeyed(g.links) && NoDuplicateLinks(g.links)
    && (forall k :: k in g.links ==> LinkSaveable(g.links[k]))
  }

  /** Nothing is open and reading goes on. */
  predicate Idle(s: LoadState)
  {
    s.status == Reading && s.currentNode.None? && s.currentPort.None? && s.currentLink.None?
    && s.nodeProps == map[] && s.portProps == map[]
  }

  lemma FoldOne(s: LoadState, e: XmlEvent)
    ensures Fold(s, [e]) == Step(s, e)
  {
    assert [e][..0] == [];
  }

  lemma FoldTwo(s: LoadState, e1: XmlEvent, e2: XmlEvent)
    ensures Fold(s, [e1, e2]) == Step(Step(s, e1), e2)
  {
    assert [e1, e2][..1] == [e1];
    FoldOne(s, e1);
  }

  /** Reading one property element files it under the open port, else the open node. */
  lemma ReadProperty(s: LoadState, k: string, v: string)
    requires s.status == Reading
    ensures Fold(s, [StartElement("Property", PropertyAttributes(k, v)), EndElement("Property")])
      == if s.currentPort.Some? then s.(portProps := s.portProps[k := v])
         else if s.currentNode.Some? then s.(nodeProps := s.nodeProps[k := v])
         else s
  {
    FoldTwo(s, StartElement("Property", PropertyAttributes(k, v)), EndElement("Property"));
  }

  /** Reading property elements adds them to the open port, else to the open node. */
  lemma {:induction false} FoldPropertyEvents(s: LoadState, keys: seq<string>, props: Properties)
    requires s.status == Reading
    requires forall k :: k in keys ==> k in props
    ensures var t := Fold(s, PropertyEvents(keys, props));
      var added := Picked(props, keys);
      t == if s.currentPort.Some? then s.(portProps := s.portProps + added)
           else if s.currentNode.Some? then s.(nodeProps := s.nodeProps + added)
           else s
    decreases |keys|
  {
    var added := Picked(props, keys);
    if keys == [] {
      assert added == map[];
      assert s.portProps + added == s.portProps;
      assert s.nodeProps + added == s.nodeProps;
    } else {
      var init := keys[..|keys| - 1];
      var k := keys[|keys| - 1];
      FoldPropertyEvents(s, init, props);
      var t := Fold(s, PropertyEvents(init, props));
      FoldAppend(s, PropertyEvents(init, props),
                 [StartElement("Property", PropertyAttributes(k, props[k])), EndElement("Property")]);
      ReadProperty(t, k, props[k]);
      MergeSnoc(s.portProps, props, keys);
      MergeSnoc(s.nodeProps, props, keys);
    }
  }

  lemma StepStartPort(s: LoadState, attrs: map<string, string>)
    requires s.status == Reading
    ensures Step(s, StartElement("Port", attrs)) == StartPort(s, attrs)
  {
  }

  lemma StartPortRead(s: LoadState, p: PortValue)
    requires s.status == Reading && PortSaveable(p)
    ensures StartPort(s, PortAttributes(p)) == s.(currentPort := Some(p.(properties := map[])))
  {
    ParseNatToString(p.id);
    DirectionRoundTrip(p.direction);
    PresenceRoundTrip(p.presence);
  }

  lemma ReadPortStart(s: LoadState, p: PortValue)
    requires s.status == Reading && PortSaveable(p)
    ensures Fold(s, [StartElement("Port", PortAttributes(p))]) == s.(currentPort := Some(p.(properties := map[])))
  {
    FoldOne(s, StartElement("Port", PortAttributes(p)));
    StepStartPort(s, PortAttributes(p));
    StartPortRead(s, p);
  }

  lemma ReadPortEnd(s: LoadState, p: PortValue)
    requires s.status == Reading && s.currentNode.Some? && PortSaveable(p)
    requires s.currentPort == Some(p.(properties := map[])) && s.portProps == p.properties
    ensures var n := s.currentNode.value;
      Fold(s, [EndElement("Port")])
      == s.(currentNode := Some(n.(ports := n.ports[p.id := p])), portProps := map[],
            portCounter := Max(s.portCounter, p.id), currentPort := None)
  {
    FoldOne(s, EndElement("Port"));
    UpdateFromEmpty(p.properties);
  }

  /** Reading one written port adds it, properties included, to the open node. */
  lemma FoldPortEvents(s: LoadState, p: PortValue, keys: seq<string>)
    requires s.status == Reading && s.currentNode.Some? && s.currentPort.None? && s.portProps == map[]
    requires PortSaveable(p) && Enumerates(keys, p.properties.Keys)
    ensures var n := s.currentNode.value;
      Fold(s, PortEvents(p, keys))
      == s.(currentNode := Some(n.(ports := n.ports[p.id := p])), portCounter := Max(s.portCounter, p.id))
  {
    var start := [StartElement("Port", PortAttributes(p))];
    var props := PropertyEvents(keys, p.properties);
    var end := [EndElement("Port")];
    ReadPortStart(s, p);
    var s1 := Fold(s, start);
    FoldPropertyEvents(s1, keys, p.properties);
    MergeAll(map[], p.properties, keys);
    var s2 := Fold(s1, props);
    assert s2 == s1.(portProps := p.properties);
    ReadPortEnd(s2, p);
    FoldAppend(s, start, props);
    FoldAppend(s, start + props, end);
  }

  /** Reading the first `|ports|` written ports adds them all to the open node. */
  lemma {:induction false} FoldPortsEvents(s: LoadState, n: NodeValue, ports: seq<nat>, o: NodeOrder)
    requires s.status == Reading && s.currentPort.None? && s.portProps == map[]
    requires s.currentNode.Some?
    requires NodeSaveable(n) && NodeOrderFits(n, o)
    requires forall p :: p in ports ==> p in n.ports
    ensures var t := Fold(s, PortsEvents(n, ports, o.portProps));
      var c := s.currentNode.value;
      t == s.(currentNode := Some(c.(ports := c.ports + Picked(n.ports, ports))),
              portCounter := t.portCounter)
    decreases |ports|
  {
    var c := s.currentNode.value;
    if ports == [] {
      assert c.ports + Picked(n.ports, ports) == c.ports;
    } else {
      var init := ports[..|ports| - 1];
      var last := ports[|ports| - 1];
      FoldPortsEvents(s, n, init, o);
      var t := Fold(s, PortsEvents(n, init, o.portProps));
      FoldAppend(s, PortsEvents(n, init, o.portProps), PortEvents(n.ports[last], o.portProps[last]));
      FoldPortEvents(t, n.ports[last], o.portProps[last]);
      MergeSnoc(c.ports, n.ports, ports);
    }
  }

  lemma StepStartNode(s: LoadState, attrs: map<string, string>)
    requires s.status == Reading
    ensures Step(s, StartElement("Node", attrs)) == StartNode(s, attrs)
  {
  }

  lemma StartNodeRead(s: LoadState, n: NodeValue)
    requires NodeSaveable(n)
    ensures StartNode(s, NodeAttributes(n)) == s.(currentNode := Some(n.(ports := map[], properties := map[])))
  {
    ParseNatToString(n.id);
    TypeRoundTrip(n.nodeType);
    ParseBoolToString(n.light);
  }

  lemma ReadNodeStart(s: LoadState, n: NodeValue)
    requires Idle(s) && NodeSaveable(n)
    ensures Fold(s, [StartElement("Node", NodeAttributes(n))])
      == s.(currentNode := Some(n.(ports := map[], properties := map[])))
  {
    FoldOne(s, StartElement("Node", NodeAttributes(n)));
    StepStartNode(s, NodeAttributes(n));
    StartNodeRead(s, n);
  }

  lemma ReadNodeEnd(s: LoadState, n: NodeValue)
    requires s.status == Reading && s.currentPort.None? && s.currentLink.None? && s.portProps == map[]
    requires NodeSaveable(n) && s.currentNode == Some(n.(properties := map[])) && s.nodeProps == n.properties
    ensures var t := Fold(s, [EndElement("Node")]);
      Idle(t) && t.graph == s.graph.(nodes := s.graph.nodes[n.id := n])
  {
    FoldOne(s, EndElement("Node"));
    UpdateFromEmpty(n.properties);
  }

  /** Reading one written node stores it, ports and properties included, and leaves nothing open. */
  lemma FoldNodeEvents(s: LoadState, n: NodeValue, o: NodeOrder)
    requires Idle(s) && NodeSaveable(n) && NodeOrderFits(n, o)
    ensures var t := Fold(s, NodeEvents(n, o));
      Idle(t) && t.graph == s.graph.(nodes := s.graph.nodes[n.id := n])
  {
    var start := [StartElement("Node", NodeAttributes(n))];
    var ports := PortsEvents(n, o.ports, o.portProps);
    var props := PropertyEvents(o.props, n.properties);
    var end := [EndElement("Node")];
    ReadNodeStart(s, n);
    var s1 := Fold(s, start);
    FoldPortsEvents(s1, n, o.ports, o);
    var s2 := Fold(s1, ports);
    MergeAll(map[], n.ports, o.ports);
    assert s2.currentNode == Some(n.(properties := map[]));
    FoldPropertyEvents(s2, o.props, n.properties);
    var s3 := Fold(s2, props);
    MergeAll(map[], n.properties, o.props);
    assert s3 == s2.(nodeProps := n.properties);
    ReadNodeEnd(s3, n);
    FoldAppend(s, start, ports);
    FoldAppend(s, start + ports, props);
    FoldAppend(s, start + ports + props, end);
  }

  /** Reading the first `|nodes|` written nodes stores exactly them. */
  lemma {:induction false} FoldNodesEvents(s: LoadState, g: GraphValue, nodes: seq<nat>, o: DocumentOrder)
    requires Idle(s) && Saveable(g) && DocumentOrderFits(g, o)
    requires forall k :: k in nodes ==> k in g.nodes
    ensures var t := Fold(s, NodesEvents(g, nodes, o.nodeOrders));
      Idle(t) && t.graph == s.graph.(nodes := s.graph.nodes + Picked(g.nodes, nodes))
    decreases |nodes|
  {
    if nodes == [] {
      assert s.graph.nodes + Picked(g.nodes, nodes) == s.graph.nodes;
    } else {
      var init := nodes[..|nodes| - 1];
      var last := nodes[|nodes| - 1];
      FoldNodesEvents(s, g, init, o);
      var t := Fold(s, NodesEvents(g, init, o.nodeOrders));
      FoldAppend(s, NodesEvents(g, init, o.nodeOrders), NodeEvents(g.nodes[last], o.nodeOrders[last]));
      FoldNodeEvents(t, g.nodes[last], o.nodeOrders[last]);
      MergeSnoc(s.graph.nodes, g.nodes, nodes);
    }
  }

  lemma ReadLink(s: LoadState, l: LinkRecord)
    requires Idle(s) && LinkSaveable(l)
    ensures var t := Fold(s, [StartElement("Link", LinkAttributes(l)), EndElement("Link")]);
      Idle(t) && t.graph == s.graph.(links := WithLink(s.graph.links, l))
  {
    FoldTwo(s, StartElement("Link", LinkAttributes(l)), EndElement("Link"));
    ReadLinkStart(s, l);
  }

  /** The attributes a written link carries, read back one by one. */
  lemma LinkAttributesRead(l: LinkRecord)
    requires LinkSaveable(l)
    ensures var a := LinkAttributes(l);
      RequiredU32(a, "id") == Some(l.id) && RequiredU32(a, "node_from") == Some(l.nodeFrom)
      && RequiredU32(a, "node_to") == Some(l.nodeTo) && RequiredU32(a, "port_from") == Some(l.portFrom)
      && RequiredU32(a, "port_to") == Some(l.portTo)
      && "active" in a && ParseBool(a["active"]) == Some(l.active) && AttrOr(a, "name", "") == l.name
  {
    var a := LinkAttributes(l);
    assert a["id"] == NatToString(l.id) && a["node_from"] == NatToString(l.nodeFrom)
      && a["node_to"] == NatToString(l.nodeTo) && a["port_from"] == NatToString(l.portFrom)
      && a["port_to"] == NatToString(l.portTo);
    ParseNatToString(l.id);
    ParseNatToString(l.nodeFrom);
    ParseNatToString(l.nodeTo);
    ParseNatToString(l.portFrom);
    ParseNatToString(l.portTo);
    ParseBoolToString(l.active);
  }

  lemma StepStartLink(s: LoadState, attrs: map<string, string>)
    requires s.status == Reading
    ensures Step(s, StartElement("Link", attrs)) == StartLink(s, attrs)
  {
  }

  lemma ReadLinkStart(s: LoadState, l: LinkRecord)
    requires Idle(s) && LinkSaveable(l)
    ensures Step(s, StartElement("Link", LinkAttributes(l))) == s.(currentLink := Some(l))
  {
    StepStartLink(s, LinkAttributes(l));
    LinkAttributesRead(l);
  }

  /** Reading the first `|keys|` written links stores exactly them when none duplicates a port pair. */
  lemma {:induction false} FoldLinksEvents(s: LoadState, links: map<nat, LinkRecord>, keys: seq<nat>)
    requires Idle(s) && s.graph.links == map[]
    requires LinksKeyed(links) && NoDuplicateLinks(links)
    requires forall k :: k in links ==> LinkSaveable(links[k])
    requires (forall k :: k in keys ==> k in links) && (forall i, j :: 0 <= i < j < |keys| ==> keys[i] != keys[j])
    ensures var t := Fold(s, LinksEvents(links, keys));
      Idle(t) && t.graph == s.graph.(links := s.graph.links + Picked(links, keys))
    decreases |keys|
  {
    if keys == [] {
      assert s.graph.links + Picked(links, keys) == s.graph.links;
    } else {
      var init := keys[..|keys| - 1];
      var k := keys[|keys| - 1];
      var l := links[k];
      FoldLinksEvents(s, links, init);
      var t := Fold(s, LinksEvents(links, init));
      FoldAppend(s, LinksEvents(links, init), [StartElement("Link", LinkAttributes(l)), EndElement("Link")]);
      ReadLink(t, l);
      var before := s.graph.links + Picked(links, init);
      assert k !in init;
      forall j | j in before
        ensures !SamePorts(before[j], l)
      {
        assert j in init && before[j] == links[j];
      }
      MergeSnoc(s.graph.links, links, keys);
    }
  }

  lemma ReadGraphStart(s: LoadState, g: GraphValue)
    requires s.status == Reading && g.id <= U32_MAX
    ensures Fold(s, [StartElement("Graph", GraphAttributes(g))]) == s.(graph := s.graph.(id := g.id))
  {
    FoldOne(s, StartElement("Graph", GraphAttributes(g)));
    ParseNatToString(g.id);
  }

  /** Reading four pieces in a row. */
  lemma FoldFour(s: LoadState, a: seq<XmlEvent>, b: seq<XmlEvent>, c: seq<XmlEvent>, d: seq<XmlEvent>)
    ensures Fold(s, a + b + c + d) == Fold(Fold(Fold(Fold(s, a), b), c), d)
  {
    FoldAppend(s, a, b);
    FoldAppend(s, a + b, c);
    FoldAppend(s, a + b + c, d);
  }

  /** Reading the written nodes and then the written links fills an empty graph with both. */
  lemma ReadBody(s: LoadState, g: GraphValue, o: DocumentOrder)
    requires Idle(s) && s.graph == GraphValue(g.id, map[], map[])
    requires Saveable(g) && DocumentOrderFits(g, o)
    ensures var t := Fold(Fold(s, NodesEvents(g, o.nodes, o.nodeOrders)), LinksEvents(g.links, o.links));
      Idle(t) && t.graph == g
  {
    var s2 := Fold(s, NodesEvents(g, o.nodes, o.nodeOrders));
    assert Idle(s2) && s2.graph == GraphValue(g.id, g.nodes, map[]) by {
      FoldNodesEvents(s, g, o.nodes, o);
      MergeAll(map[], g.nodes, o.nodes);
    }
    FoldLinksEvents(s2, g.links, o.links);
    MergeAll(map[], g.links, o.links);
  }

  lemma ReadGraphEnd(s: LoadState)
    requires Idle(s)
    ensures Fold(s, [EndElement("Graph")]) == s
  {
    FoldOne(s, EndElement("Graph"));
  }

  lemma ReadDocument(s: LoadState, g: GraphValue, o: DocumentOrder)
    requires Idle(s) && s.graph.nodes == map[] && s.graph.links == map[]
    requires Saveable(g) && DocumentOrderFits(g, o)
    ensures var t := Fold(s, DocumentEvents(g, o));
      Idle(t) && t.graph == g
  {
    var start := [StartElement("Graph", GraphAttributes(g))];
    var nodes := NodesEvents(g, o.nodes, o.nodeOrders);
    var links := LinksEvents(g.links, o.links);
    ReadGraphStart(s, g);
    ReadBody(Fold(s, start), g, o);
    ReadGraphEnd(Fold(Fold(Fold(s, start), nodes), links));
    FoldFour(s, start, nodes, links, [EndElement("Graph")]);
  }

  /**
   * Loading what `render_xml` wrote restores the graph: its id, every node
   * with its name, type, light, ports and properties, and every link with its
   * endpoints, name and active flag, in whatever order the maps were visited.
   */
  lemma RenderLoadRoundTrip(g: GraphValue, o: DocumentOrder, id: nat)
    requires Saveable(g) && DocumentOrderFits(g, o)
    ensures Fold(LoadStart(id, map[]), DocumentEvents(g, o)).graph == g
    ensures Fold(LoadStart(id, map[]), DocumentEvents(g, o)).status == Reading
  {
    ReadDocument(LoadStart(id, map[]), g, o);
  }

  // ---------------------------------------------------------------------
  // The writer. Each map is visited in an order it does not fix.

  /** Writes one `Property` element per entry. */
  method WriteProperties(props: Properties) returns (events: seq<XmlEvent>, ghost keys: seq<string>)
    ensures Enumerates(keys, props.Keys)
    ensures events == PropertyEvents(keys, props)
  {
    events := [];
    keys := [];
    var pending := props.Keys;
    while pending != {}
      invariant Listing(keys, pending, props.Keys)
      invariant events == PropertyEvents(keys, props)
      decreases pending
    {
      var k :| k in pending;
      ListingStep(keys, pending, props.Keys, k);
      events := events + [StartElement("Property", PropertyAttributes(k, props[k])), EndElement("Property")];
      assert (keys + [k])[..|keys|] == keys;
      keys := keys + [k];
      pending := pending - {k};
    }
    ListingDone(keys, props.Keys);
  }

  /** Writes a `Port` element with its properties inside. */
  method WritePort(p: PortValue) returns (events: seq<XmlEvent>, ghost keys: seq<string>)
    ensures Enumerates(keys, p.properties.Keys)
    ensures events == PortEvents(p, keys)
  {
    var props;
    props, keys := WriteProperties(p.properties);
    events := [StartElement("Port", PortAttributes(p))] + props + [EndElement("Port")];
  }

  /** Writes a `Port` element for each port of a node. */
  method WritePorts(n: NodeValue) returns (events: seq<XmlEvent>, ghost ports: seq<nat>, ghost portProps: map<nat, seq<string>>)
    ensures Enumerates(ports, n.ports.Keys)
    ensures forall p :: p in n.ports ==> p in portProps && Enumerates(portProps[p], n.ports[p].properties.Keys)
    ensures forall p :: p in ports ==> p in n.ports && p in portProps
    ensures forall p :: p in ports ==> forall k :: k in portProps[p] ==> k in n.ports[p].properties
    ensures events == PortsEvents(n, ports, portProps)
  {
    events := [];
    ports := [];
    portProps := map[];
    var pending := n.ports.Keys;
    while pending != {}
      invariant Listing(ports, pending, n.ports.Keys)
      invariant forall p :: p in ports ==> p in portProps && Enumerates(portProps[p], n.ports[p].properties.Keys)
      invariant events == PortsEvents(n, ports, portProps)
      decreases pending
    {
      var p :| p in pending;
      ListingStep(ports, pending, n.ports.Keys, p);
      var portEvents, keys := WritePort(n.ports[p]);
      PortsEventsFrame(n, ports, portProps, portProps[p := keys]);
      events := events + portEvents;
      assert (ports + [p])[..|ports|] == ports;
      ports := ports + [p];
      portProps := portProps[p := keys];
      pending := pending - {p};
    }
    ListingDone(ports, n.ports.Keys);
  }

  /** Writes a `Node` element: its ports, then its own properties. */
  method WriteNode(n: NodeValue) returns (events: seq<XmlEvent>, ghost order: NodeOrder)
    ensures NodeOrderFits(n, order)
    ensures events == NodeEvents(n, order)
  {
    var body, ports, portProps := WritePorts(n);
    var props, propKeys := WriteProperties(n.properties);
    order := NodeOrder(ports, portProps, propKeys);
    events := [StartElement("Node", NodeAttributes(n))] + body + props + [EndElement("Node")];
  }

  /** Writes one `Link` element per link. */
  method WriteLinks(links: map<nat, LinkRecord>) returns (events: seq<XmlEvent>, ghost keys: seq<nat>)
    ensures Enumerates(keys, links.Keys)
    ensures events == LinksEvents(links, keys)
  {
    events := [];
    keys := [];
    var pending := links.Keys;
    while pending != {}
      invariant Listing(keys, pending, links.Keys)
      invariant events == LinksEvents(links, keys)
      decreases pending
    {
      var k :| k in pending;
      ListingStep(keys, pending, links.Keys, k);
      events := events + [StartElement("Link", LinkAttributes(links[k])), EndElement("Link")];
      assert (keys + [k])[..|keys|] == keys;
      keys := keys + [k];
      pending := pending - {k};
    }
    ListingDone(keys, links.Keys);
  }

  /** Writes one `Node` element per node. */
  method WriteNodes(g: GraphValue) returns (body: seq<XmlEvent>, ghost nodes: seq<nat>, ghost orders: map<nat, NodeOrder>)
    ensures Enumerates(nodes, g.nodes.Keys)
    ensures forall k :: k in g.nodes ==> k in orders && NodeOrderFits(g.nodes[k], orders[k])
    ensures forall k :: k in nodes ==> k in g.nodes && k in orders && NodeOrderFits(g.nodes[k], orders[k])
    ensures body == NodesEvents(g, nodes, orders)
  {
    body, nodes, orders := [], [], map[];
    var pending := g.nodes.Keys;
    while pending != {}
      invariant Listing(nodes, pending, g.nodes.Keys)
      invariant forall k :: k in nodes ==> k in orders && NodeOrderFits(g.nodes[k], orders[k])
      invariant body == NodesEvents(g, nodes, orders)
      decreases pending
    {
      var k :| k in pending;
      var nodeEvents, o := WriteNode(g.nodes[k]);
      NodesEventsFrame(g, nodes, orders, orders[k := o]);
      ListingStep(nodes, pending, g.nodes.Keys, k);
      body := body + nodeEvents;
      assert (nodes + [k])[..|nodes|] == nodes;
      nodes := nodes + [k];
      orders := orders[k := o];
      pending := pending - {k};
    }
    ListingDone(nodes, g.nodes.Keys);
  }

  /**
   * `render_xml`: the `Graph` element holding every node and then every link.
   * Loading the result gives the graph back (`RenderLoadRoundTrip`).
   */
  method WriteDocument(g: GraphValue) returns (events: seq<XmlEvent>, ghost order: DocumentOrder)
    ensures DocumentOrderFits(g, order)
    ensures events == DocumentEvents(g, order)
  {
    var body, nodes, orders := WriteNodes(g);
    var links, linkKeys := WriteLinks(g.links);
    order := DocumentOrder(nodes, orders, linkKeys);
    events := [StartElement("Graph", GraphAttributes(g))] + body + links + [EndElement("Graph")];
  }
}
