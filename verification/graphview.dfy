/**
 * The graph view: nodes (objects) and links (records) in maps keyed by id,
 * three id counters that only the allocators and the loader raise, and the
 * port remembered between the two clicks that create a link.
 */
module GraphView {
  import opened Wrappers
  import opened Text
  import opened Property
  import opened Port
  import opened Node
  import opened GraphData
  import opened GraphXml

  /** The value of a port object. */
  function PortSnapshot(p: Port): PortValue
    reads p
  {
    PortValue(p.id, p.name, p.direction, p.presence, p.properties)
  }

  /** The values of a map of port objects, key by key. */
  function PortsSnapshot(ports: map<nat, Port>): map<nat, PortValue>
    reads ports.Values
  {
    map k | k in ports :: PortSnapshot(ports[k])
  }

  /** Storing one more port object stores its value under the same key. */
  lemma PortsSnapshotStore(ports: map<nat, Port>, p: Port)
    ensures PortsSnapshot(ports[p.id := p]) == PortsSnapshot(ports)[p.id := PortSnapshot(p)]
  {
  }

  /** The value of a node object and its ports. */
  function NodeSnapshot(n: Node): NodeValue
    reads n, n.ports.Values
  {
    NodeValue(n.id, n.name, n.nodeType, n.light, PortsSnapshot(n.ports), n.properties)
  }

  /** Every port object of a map of nodes. */
  ghost function PortsOf(nodes: map<nat, Node>): set<Port>
    reads nodes.Values
  {
    set n, p | n in nodes.Values && p in n.ports.Values :: p
  }

  /** The values of a map of node objects, key by key. */
  function NodesSnapshot(nodes: map<nat, Node>): map<nat, NodeValue>
    reads nodes.Values, PortsOf(nodes)
  {
    map k | k in nodes :: NodeSnapshot(nodes[k])
  }

  /** Storing one more node object stores its value under its id. */
  lemma NodesSnapshotStore(nodes: map<nat, Node>, n: Node)
    ensures NodesSnapshot(nodes[n.id := n]) == NodesSnapshot(nodes)[n.id := NodeSnapshot(n)]
  {
  }

  /** The port remembered by the first click: its id, its direction and the id of its node. */
  datatype PortRef = PortRef(nodeId: nat, portId: nat, direction: PortDirection)

  /**
   * The local state of the loading loop: the node, port and link being read,
   * the properties gathered for the open node and the open port, and how
   * the loop stands.
   */
  datatype Cursor = Cursor(
    node: Option<Node>, nodeProps: Properties,
    port: Option<Port>, portProps: Properties,
    link: Option<LinkRecord>, status: LoadStatus)

  function NodeSet(o: Option<Node>): set<Node>
  {
    if o.Some? then {o.value} else {}
  }

  function PortSet(o: Option<Port>): set<Port>
  {
    if o.Some? then {o.value} else {}
  }

  /** The objects the open node and open port bring into the loading state. */
  ghost function CursorObjects(c: Cursor): set<object>
    reads NodeSet(c.node)
  {
    NodeSet(c.node) + (if c.node.Some? then c.node.value.ports.Values else {}) + PortSet(c.port)
  }

  /**
   * `ports_compatible`: a remembered port and the clicked one may be joined
   * when they are different ports, face different ways and sit on different
   * nodes; with nothing remembered they may not.
   */
  function PortsCompatible(selected: Option<PortRef>, to: PortRef): (r: bool)
    ensures r ==> selected.Some?
    ensures r <==>
      selected.Some? && selected.value.portId != to.portId
      && selected.value.direction != to.direction && selected.value.nodeId != to.nodeId
  {
    match selected
    case None => false
    case Some(from) => from.portId != to.portId && from.direction != to.direction && from.nodeId != to.nodeId
  }

  /** No link starts or ends at the port (`port_is_linked` answers `None`). */
  predicate PortFree(links: map<nat, LinkRecord>, portId: nat)
  {
    forall k :: k in links ==> !TouchesPort(links[k], portId)
  }

  /**
   * The link a compatible second click creates: from the output port to the
   * input port, whichever of the two was clicked first.
   */
  function ClickedLink(linkId: nat, selected: PortRef, clicked: PortRef): (l: LinkRecord)
    requires PortsCompatible(Some(selected), clicked)
    requires selected.direction == Input || selected.direction == Output
    requires clicked.direction == Input || clicked.direction == Output
    ensures l.id == linkId && l.name == "" && l.active && !l.selected
    ensures (l.portFrom == selected.portId && l.portTo == clicked.portId && l.nodeFrom == selected.nodeId && l.nodeTo == clicked.nodeId
             && selected.direction == Output && clicked.direction == Input)
         || (l.portFrom == clicked.portId && l.portTo == selected.portId && l.nodeFrom == clicked.nodeId && l.nodeTo == selected.nodeId
             && clicked.direction == Output && selected.direction == Input)
  {
    if clicked.direction == Output then
      LinkRecord(linkId, clicked.nodeId, selected.nodeId, clicked.portId, selected.portId, "", true, false)
    else
      LinkRecord(linkId, selected.nodeId, clicked.nodeId, selected.portId, clicked.portId, "", true, false)
  }

  /** `all_nodes` filter: the requested type, or every node for `All`. */
  predicate TypeMatches(nodeType: NodeType, wanted: NodeType)
  {
    nodeType == wanted || wanted == NodeType.All
  }

  /** The ports made by a run of additions: each named `portName`, facing `direction` and always present. */
  ghost predicate MadeAlike(made: seq<Port>, portName: string, direction: PortDirection)
    reads made
  {
    forall j :: 0 <= j < |made| ==> made[j].name == portName && made[j].direction == direction && made[j].presence == Always
  }

  /** The ports of a run sit under the run's ids, with the run's name, direction and presence. */
  lemma LoopPortsAlike(ports: map<nat, Port>, base: nat, oldPorts: map<nat, Port>, n: nat, made: seq<Port>,
                       portName: string, direction: PortDirection)
    requires LoopPorts(ports, base, oldPorts, n, made) && MadeAlike(made, portName, direction)
    ensures forall k :: base < k <= base + n ==>
      ports[k].direction == direction && ports[k].name == portName && ports[k].presence == Always
  {
    forall k | base < k <= base + n
      ensures ports[k].direction == direction && ports[k].name == portName && ports[k].presence == Always
    {
      assert ports[k] == made[k - base - 1];
    }
  }

  class GraphView {
    var id: nat
    var nodes: map<nat, Node>
    var links: map<nat, LinkRecord>
    var currentNodeId: nat
    var currentPortId: nat
    var currentLinkId: nat
    var portSelected: Option<PortRef>

    /** Every port object of every node. */
    ghost function PortObjects(): set<Port>
      reads this, nodes.Values
    {
      PortsOf(nodes)
    }

    /**
     * Nodes are stored under their ids and keep their own port invariant;
     * links are stored under their ids and no two join the same two ports.
     */
    ghost predicate Valid()
      reads this, nodes.Values
    {
      (forall k :: k in nodes ==> nodes[k].id == k && nodes[k].Valid())
      && LinksKeyed(links) && NoDuplicateLinks(links)
      && (portSelected.Some? ==> portSelected.value.direction == Input || portSelected.value.direction == Output)
    }

    /** The graph as values: what `render_xml` writes and the generator reads. */
    function Snapshot(): GraphValue
      reads this, nodes.Values, PortObjects()
    {
      GraphValue(id, NodesSnapshot(nodes), links)
    }

    constructor ()
      ensures Valid()
      ensures id == 0 && nodes == map[] && links == map[] && portSelected.None?
      ensures currentNodeId == 0 && currentPortId == 0 && currentLinkId == 0
    {
      id := 0;
      nodes := map[];
      links := map[];
      currentNodeId := 0;
      currentPortId := 0;
      currentLinkId := 0;
      portSelected := None;
    }

    method SetId(id: nat)
      modifies this
      ensures this.id == id
      ensures nodes == old(nodes) && links == old(links) && portSelected == old(portSelected)
      ensures currentNodeId == old(currentNodeId) && currentPortId == old(currentPortId)
      ensures currentLinkId == old(currentLinkId)
      ensures Snapshot() == old(Snapshot()).(id := id)
    {
      this.id := id;
    }

    // Id allocation.

    /** `next_node_id`: one above the counter, which then holds it. */
    method NextNodeId() returns (r: nat)
      modifies this
      ensures r == old(currentNodeId) + 1 && currentNodeId == r
      ensures id == old(id) && nodes == old(nodes) && links == old(links) && portSelected == old(portSelected)
      ensures currentPortId == old(currentPortId) && currentLinkId == old(currentLinkId)
    {
      currentNodeId := currentNodeId + 1;
      r := currentNodeId;
    }

    method NextPortId() returns (r: nat)
      modifies this`currentPortId
      ensures r == old(currentPortId) + 1 && currentPortId == r
      ensures id == old(id) && nodes == old(nodes) && links == old(links) && portSelected == old(portSelected)
      ensures currentNodeId == old(currentNodeId) && currentLinkId == old(currentLinkId)
    {
      currentPortId := currentPortId + 1;
      r := currentPortId;
    }

    method NextLinkId() returns (r: nat)
      modifies this
      ensures r == old(currentLinkId) + 1 && currentLinkId == r
      ensures id == old(id) && nodes == old(nodes) && links == old(links) && portSelected == old(portSelected)
      ensures currentNodeId == old(currentNodeId) && currentPortId == old(currentPortId)
    {
      currentLinkId := currentLinkId + 1;
      r := currentLinkId;
    }

    /** `update_current_node_id`: the counter rises to `nodeId` and never falls. */
    method UpdateCurrentNodeId(nodeId: nat)
      modifies this
      ensures currentNodeId == Max(old(currentNodeId), nodeId)
      ensures id == old(id) && nodes == old(nodes) && links == old(links) && portSelected == old(portSelected)
      ensures currentPortId == old(currentPortId) && currentLinkId == old(currentLinkId)
      ensures Snapshot() == old(Snapshot())
    {
      if nodeId > currentNodeId {
        currentNodeId := nodeId;
      }
    }

    method UpdateCurrentPortId(portId: nat)
      modifies this
      ensures currentPortId == Max(old(currentPortId), portId)
      ensures id == old(id) && nodes == old(nodes) && links == old(links) && portSelected == old(portSelected)
      ensures currentNodeId == old(currentNodeId) && currentLinkId == old(currentLinkId)
      ensures Snapshot() == old(Snapshot())
    {
      if portId > currentPortId {
        currentPortId := portId;
      }
    }

    method UpdateCurrentLinkId(linkId: nat)
      modifies this
      ensures currentLinkId == Max(old(currentLinkId), linkId)
      ensures id == old(id) && nodes == old(nodes) && links == old(links) && portSelected == old(portSelected)
      ensures currentNodeId == old(currentNodeId) && currentPortId == old(currentPortId)
      ensures Snapshot() == old(Snapshot())
    {
      if linkId > currentLinkId {
        currentLinkId := linkId;
      }
    }

    // Nodes.

    /** `create_node`: a new node with the next node id; it is not added. */
    method CreateNode(name: string, nodeType: NodeType) returns (node: Node)
      modifies this
      ensures fresh(node) && node.Valid() && node.CountersMatch()
      ensures node.numPortsIn == 0 && node.numPortsOut == 0
      ensures node.id == old(currentNodeId) + 1 && currentNodeId == node.id
      ensures node.name == name && node.nodeType == nodeType && node.ports == map[] && node.properties == map[]
      ensures !node.selected && !node.light
      ensures id == old(id) && nodes == old(nodes) && links == old(links) && portSelected == old(portSelected)
      ensures currentPortId == old(currentPortId) && currentLinkId == old(currentLinkId)
    {
      var nodeId := NextNodeId();
      node := new Node(nodeId, name, nodeType);
    }

    /** `create_port`: a new port with the next port id; it is not added. */
    method CreatePort(name: string, direction: PortDirection, presence: PortPresence) returns (port: Port)
      modifies this`currentPortId
      ensures fresh(port)
      ensures port.id == old(currentPortId) + 1 && currentPortId == port.id
      ensures port.name == name && port.direction == direction && port.presence == presence
      ensures !port.selected && port.properties == map[]
      ensures id == old(id) && nodes == old(nodes) && links == old(links) && portSelected == old(portSelected)
      ensures currentNodeId == old(currentNodeId) && currentLinkId == old(currentLinkId)
    {
      var portId := NextPortId();
      port := new Port(portId, name, direction, presence);
    }

    /** `add_port_to_node`: the node gains the port under its id (a port facing neither way panics). */
    method AddPortToNode(node: Node, port: Port)
      requires node.Valid()
      requires port.direction == Input || port.direction == Output
      modifies node
      ensures node.Valid()
      ensures node.ports == old(node.ports)[port.id := port]
      ensures port.direction == Input ==> node.numPortsIn == old(node.numPortsIn) + 1 && node.numPortsOut == old(node.numPortsOut)
      ensures port.direction == Output ==> node.numPortsOut == old(node.numPortsOut) + 1 && node.numPortsIn == old(node.numPortsIn)
      ensures node.properties == old(node.properties) && node.light == old(node.light) && node.selected == old(node.selected)
      ensures old(node.CountersMatch()) && port.id !in old(node.ports) ==> node.CountersMatch()
    {
      node.AddPort(port);
    }

    /**
     * Adds `count` new ports named `portName`, facing `direction` and always
     * present, with the next `count` port ids: the loop body of
     * `create_node_with_port`.
     */
    method AddNewPorts(node: Node, count: nat, portName: string, direction: PortDirection)
      requires node.Valid()
      requires direction == Input || direction == Output
      requires forall k :: k in node.ports ==> k <= currentPortId
      modifies this`currentPortId, node
      ensures node.Valid()
      ensures currentPortId == old(currentPortId) + count
      ensures forall k :: k in node.ports <==> k in old(node.ports) || old(currentPortId) < k <= currentPortId
      ensures forall k :: k in old(node.ports) ==> node.ports[k] == old(node.ports[k])
      ensures forall k :: old(currentPortId) < k <= currentPortId ==>
        node.ports[k].direction == direction && node.ports[k].name == portName && node.ports[k].presence == Always
      ensures direction == Input ==> node.numPortsIn == old(node.numPortsIn) + count && node.numPortsOut == old(node.numPortsOut)
      ensures direction == Output ==> node.numPortsOut == old(node.numPortsOut) + count && node.numPortsIn == old(node.numPortsIn)
      ensures node.properties == old(node.properties) && node.light == old(node.light)
      ensures id == old(id) && nodes == old(nodes) && links == old(links) && portSelected == old(portSelected)
      ensures currentNodeId == old(currentNodeId) && currentLinkId == old(currentLinkId)
    {
      ghost var base, oldPorts, ins, outs := currentPortId, node.ports, node.numPortsIn, node.numPortsOut;
      ghost var made: seq<Port> := [];
      var i := 0;
      while i < count
        invariant 0 <= i <= count
        invariant node.Valid() && currentPortId == base + i
        invariant LoopPorts(node.ports, base, oldPorts, i, made)
        invariant MadeAlike(made, portName, direction) && CountersAdvanced(node, direction, ins, outs, i)
        invariant node.properties == old(node.properties) && node.light == old(node.light)
      {
        made := AddNewPort(node, portName, direction, base, oldPorts, i, made, ins, outs);
        i := i + 1;
      }
      LoopPortsAlike(node.ports, base, oldPorts, count, made, portName, direction);
    }

    /** One pass of the loop of `create_node_with_port`: the next port, stored in the node. */
    method AddNewPort(node: Node, portName: string, direction: PortDirection,
                      ghost base: nat, ghost oldPorts: map<nat, Port>, ghost i: nat, ghost made: seq<Port>,
                      ghost ins: int, ghost outs: int)
      returns (ghost made': seq<Port>)
      requires node.Valid() && (direction == Input || direction == Output)
      requires currentPortId == base + i && LoopPorts(node.ports, base, oldPorts, i, made)
      requires MadeAlike(made, portName, direction) && CountersAdvanced(node, direction, ins, outs, i)
      modifies this`currentPortId, node
      ensures node.Valid() && currentPortId == base + i + 1
      ensures LoopPorts(node.ports, base, oldPorts, i + 1, made')
      ensures MadeAlike(made', portName, direction) && CountersAdvanced(node, direction, ins, outs, i + 1)
      ensures node.properties == old(node.properties) && node.light == old(node.light)
    {
      ghost var before := node.ports;
      var port := CreatePort(portName, direction, Always);
      AddPortToNode(node, port);
      LoopPortsStep(before, base, oldPorts, i, made, port.id, port);
      made' := made + [port];
    }

    /**
     * `create_node_with_port`: a new node holding `input` ports named "in"
     * and then `output` ports named "out", all `Always`, with consecutive new
     * port ids. The node is returned, not added.
     */
    method CreateNodeWithPort(name: string, nodeType: NodeType, input: nat, output: nat) returns (node: Node)
      modifies this
      ensures fresh(node) && node.Valid()
      ensures node.id == old(currentNodeId) + 1 && currentNodeId == node.id
      ensures node.name == name && node.nodeType == nodeType
      ensures currentPortId == old(currentPortId) + input + output
      ensures forall k :: k in node.ports <==> old(currentPortId) < k <= currentPortId
      ensures forall k :: old(currentPortId) < k <= old(currentPortId) + input ==>
        node.ports[k].direction == Input && node.ports[k].name == "in" && node.ports[k].presence == Always
      ensures forall k :: old(currentPortId) + input < k <= currentPortId ==>
        node.ports[k].direction == Output && node.ports[k].name == "out" && node.ports[k].presence == Always
      ensures node.numPortsIn == input && node.numPortsOut == output
      ensures id == old(id) && nodes == old(nodes) && links == old(links) && portSelected == old(portSelected)
      ensures currentLinkId == old(currentLinkId)
    {
      node := CreateNode(name, nodeType);
      AddNewPorts(node, input, "in", Input);
      AddNewPorts(node, output, "out", Output);
    }

    /** `add_node`: the node is stored under its id, replacing any node with that id. */
    method AddNode(node: Node)
      requires Valid() && node.Valid()
      modifies this
      ensures Valid()
      ensures nodes == old(nodes)[node.id := node]
      ensures id == old(id) && links == old(links) && portSelected == old(portSelected)
      ensures currentNodeId == old(currentNodeId) && currentPortId == old(currentPortId)
      ensures currentLinkId == old(currentLinkId)
      ensures Snapshot() == old(Snapshot()).(nodes := old(Snapshot()).nodes[node.id := NodeSnapshot(node)])
    {
      NodesSnapshotStore(nodes, node);
      ghost var ns := NodesSnapshot(nodes);
      ghost var nv := NodeSnapshot(node);
      nodes := nodes[node.id := node];
      assert NodesSnapshot(old(nodes)) == ns;
      assert NodeSnapshot(node) == nv;
    }

    /** `node`: the node stored under `nodeId`, if any. */
    function GetNode(nodeId: nat): (r: Option<Node>)
      reads this
      ensures r.Some? <==> nodeId in nodes
      ensures r.Some? ==> r.value == nodes[nodeId]
    {
      if nodeId in nodes then Some(nodes[nodeId]) else None
    }

    /** `node_is_linked`: some link starting or ending at the node, if any. */
    method NodeIsLinked(nodeId: nat) returns (r: Option<nat>)
      ensures r.Some? ==> r.value in links && TouchesNode(links[r.value], nodeId)
      ensures r.None? ==> forall k :: k in links ==> !TouchesNode(links[k], nodeId)
    {
      r := LinkTouchingNode(links, nodeId);
    }

    /**
     * `remove_node`: the node goes, and so does every link starting or ending
     * at it. An absent id changes nothing.
     */
    method RemoveNode(nodeId: nat)
      requires Valid()
      modifies this
      ensures Valid()
      ensures nodes == old(nodes) - {nodeId}
      ensures nodeId in old(nodes) ==> links == LinksAvoiding(old(links), {nodeId})
      ensures nodeId !in old(nodes) ==> links == old(links)
      ensures id == old(id) && portSelected == old(portSelected)
      ensures currentNodeId == old(currentNodeId) && currentPortId == old(currentPortId)
      ensures currentLinkId == old(currentLinkId)
    {
      if nodeId in nodes {
        nodes := nodes - {nodeId};
        links := RemoveLinksOf(links, nodeId);
        LinksAvoidingKeepsInvariant(old(links), {nodeId});
      }
    }

    /** `all_nodes`: every node of the requested type (every node for `All`), each once. */
    method AllNodes(nodeType: NodeType) returns (r: seq<Node>)
      requires Valid()
      ensures forall i :: 0 <= i < |r| ==> r[i].id in nodes && nodes[r[i].id] == r[i] && TypeMatches(r[i].nodeType, nodeType)
      ensures forall k :: k in nodes && TypeMatches(nodes[k].nodeType, nodeType) ==> nodes[k] in r
      ensures forall i, j :: 0 <= i < j < |r| ==> r[i].id != r[j].id
    {
      r := [];
      var pending := nodes.Keys;
      while pending != {}
        invariant pending <= nodes.Keys
        invariant forall i :: 0 <= i < |r| ==> r[i].id in nodes && r[i].id !in pending && nodes[r[i].id] == r[i]
        invariant forall i :: 0 <= i < |r| ==> TypeMatches(r[i].nodeType, nodeType)
        invariant forall k :: k in nodes && k !in pending && TypeMatches(nodes[k].nodeType, nodeType) ==> nodes[k] in r
        invariant forall i, j :: 0 <= i < j < |r| ==> r[i].id != r[j].id
        decreases pending
      {
        var k :| k in pending;
        if TypeMatches(nodes[k].nodeType, nodeType) {
          r := r + [nodes[k]];
        }
        pending := pending - {k};
      }
    }

    /** `node_by_unique_name`: a node whose name followed by its id is `uniqueName`, if any. */
    method NodeByUniqueName(uniqueName: string) returns (r: Option<Node>)
      ensures r.Some? ==> r.value in nodes.Values && UniqueName(r.value.name, r.value.id) == uniqueName
      ensures r.None? ==> forall k :: k in nodes ==> UniqueName(nodes[k].name, nodes[k].id) != uniqueName
    {
      var pending := nodes.Keys;
      while pending != {}
        invariant pending <= nodes.Keys
        invariant forall k :: k in nodes && k !in pending ==> UniqueName(nodes[k].name, nodes[k].id) != uniqueName
        decreases pending
      {
        var k :| k in pending;
        if UniqueName(nodes[k].name, nodes[k].id) == uniqueName {
          return Some(nodes[k]);
        }
        pending := pending - {k};
      }
      return None;
    }

    /**
     * `remove_all_nodes` (and `clear`): every node goes with its links, and
     * the three counters return to 0. Links between ids that are not nodes stay.
     */
    method RemoveAllNodes()
      requires Valid()
      modifies this
      ensures Valid()
      ensures nodes == map[]
      ensures links == LinksAvoiding(old(links), old(nodes).Keys)
      ensures currentNodeId == 0 && currentPortId == 0 && currentLinkId == 0
      ensures id == old(id) && portSelected == old(portSelected)
    {
      var list := AllNodes(NodeType.All);
      ghost var ids := seq(|list|, j requires 0 <= j < |list| => list[j].id);
      assert forall k :: k in nodes ==> exists j :: 0 <= j < |ids| && ids[j] == k by {
        forall k | k in nodes
          ensures exists j :: 0 <= j < |ids| && ids[j] == k
        {
          var j :| 0 <= j < |list| && list[j] == nodes[k];
          assert ids[j] == k;
        }
      }
      ghost var removed: set<nat> := {};
      var i := 0;
      while i < |list|
        invariant 0 <= i <= |list|
        invariant Valid()
        invariant Cleared(ids, i, removed, old(nodes), nodes)
        invariant links == LinksAvoiding(old(links), removed)
        invariant id == old(id) && portSelected == old(portSelected)
        decreases |list| - i
      {
        var nodeId := list[i].id;
        ClearedStep(ids, i, removed, old(nodes), nodes);
        RemoveNode(nodeId);
        LinksAvoidingGrow(old(links), removed, nodeId);
        removed := removed + {nodeId};
        i := i + 1;
      }
      ClearedAll(ids, removed, old(nodes), nodes);
      currentNodeId := 0;
      currentPortId := 0;
      currentLinkId := 0;
    }

    // Ports.

    /** `can_remove_port`: the node exists and its port may go; otherwise false. */
    predicate CanRemovePort(nodeId: nat, portId: nat)
      reads this, nodes.Values
    {
      nodeId in nodes && nodes[nodeId].CanRemovePort(portId)
    }

    /** `port_is_linked`: some link starting or ending at the port, if any. */
    method PortIsLinked(portId: nat) returns (r: Option<nat>)
      ensures r.Some? ==> r.value in links && TouchesPort(links[r.value], portId)
      ensures r.None? ==> forall k :: k in links ==> !TouchesPort(links[k], portId)
    {
      var pending := links.Keys;
      while pending != {}
        invariant pending <= links.Keys
        invariant forall k :: k in links && k !in pending ==> !TouchesPort(links[k], portId)
        decreases pending
      {
        var k :| k in pending;
        if TouchesPort(links[k], portId) {
          return Some(k);
        }
        pending := pending - {k};
      }
      return None;
    }

    /**
     * `remove_port`: on an existing node, one link touching the port (if any)
     * goes, then the port. Further links touching it stay. An unknown node
     * changes nothing.
     */
    method RemovePort(nodeId: nat, portId: nat)
      requires Valid()
      modifies this, if nodeId in nodes then {nodes[nodeId]} else {}
      ensures Valid()
      ensures nodes == old(nodes)
      ensures nodeId !in old(nodes) ==> links == old(links)
      ensures nodeId in old(nodes) ==>
        nodes[nodeId].ports == old(nodes[nodeId].ports) - {portId}
        && (links == old(links) || exists k :: k in old(links) && TouchesPort(old(links)[k], portId) && links == old(links) - {k})
        && (links == old(links) ==> forall k :: k in links ==> !TouchesPort(links[k], portId))
      ensures nodeId in old(nodes) && old(nodes[nodeId].CountersMatch()) ==> nodes[nodeId].CountersMatch()
      ensures id == old(id) && portSelected == old(portSelected)
      ensures currentNodeId == old(currentNodeId) && currentPortId == old(currentPortId)
      ensures currentLinkId == old(currentLinkId)
    {
      if nodeId in nodes {
        var linkId := PortIsLinked(portId);
        if linkId.Some? {
          RemoveLink(linkId.value);
        }
        nodes[nodeId].RemovePort(portId);
      }
    }

    // Links.

    /** `remove_link`. */
    method RemoveLink(linkId: nat)
      requires Valid()
      modifies this
      ensures Valid()
      ensures links == old(links) - {linkId}
      ensures nodes == old(nodes) && id == old(id) && portSelected == old(portSelected)
      ensures currentNodeId == old(currentNodeId) && currentPortId == old(currentPortId)
      ensures currentLinkId == old(currentLinkId)
    {
      links := links - {linkId};
    }

    /**
     * `create_link`: a new link with the next link id, unnamed, active and
     * unselected; it is not added.
     */
    method CreateLink(nodeFrom: nat, nodeTo: nat, portFrom: nat, portTo: nat) returns (link: LinkRecord)
      modifies this
      ensures link == LinkRecord(old(currentLinkId) + 1, nodeFrom, nodeTo, portFrom, portTo, "", true, false)
      ensures currentLinkId == link.id
      ensures id == old(id) && nodes == old(nodes) && links == old(links) && portSelected == old(portSelected)
      ensures currentNodeId == old(currentNodeId) && currentPortId == old(currentPortId)
    {
      var linkId := NextLinkId();
      link := LinkRecord(linkId, nodeFrom, nodeTo, portFrom, portTo, "", true, false);
    }

    /** `link_exists`: some stored link joins the same two ports, in either orientation. */
    method LinkExists(link: LinkRecord) returns (r: bool)
      ensures r <==> GraphData.LinkExists(links, link)
    {
      var pending := links.Keys;
      while pending != {}
        invariant pending <= links.Keys
        invariant forall k :: k in links && k !in pending ==> !SamePorts(links[k], link)
        decreases pending
      {
        var k :| k in pending;
        if SamePorts(links[k], link) {
          return true;
        }
        pending := pending - {k};
      }
      return false;
    }

    /** `add_link`: stored under its id unless some link already joins its two ports. */
    method AddLink(link: LinkRecord)
      requires Valid()
      modifies this
      ensures Valid()
      ensures links == WithLink(old(links), link)
      ensures nodes == old(nodes) && id == old(id) && portSelected == old(portSelected)
      ensures currentNodeId == old(currentNodeId) && currentPortId == old(currentPortId)
      ensures currentLinkId == old(currentLinkId)
      ensures Snapshot() == old(Snapshot()).(links := links)
    {
      WithLinkKeepsInvariant(links, link);
      ghost var ns := NodesSnapshot(nodes);
      var exists_ := LinkExists(link);
      if !exists_ {
        links := links[link.id := link];
      }
      assert NodesSnapshot(nodes) == ns;
    }

    /** `set_link_state`: only the named link's active flag changes; an unknown id changes nothing. */
    method SetLinkState(linkId: nat, active: bool)
      requires Valid()
      modifies this
      ensures Valid()
      ensures linkId in old(links) ==> links == old(links)[linkId := old(links)[linkId].(active := active)]
      ensures linkId !in old(links) ==> links == old(links)
      ensures nodes == old(nodes) && id == old(id) && portSelected == old(portSelected)
      ensures currentNodeId == old(currentNodeId) && currentPortId == old(currentPortId)
      ensures currentLinkId == old(currentLinkId)
    {
      if linkId in links {
        links := links[linkId := links[linkId].(active := active)];
      }
    }

    /** `set_link_name`: only the named link's name changes; an unknown id changes nothing. */
    method SetLinkName(linkId: nat, name: string)
      requires Valid()
      modifies this
      ensures Valid()
      ensures linkId in old(links) ==> links == old(links)[linkId := old(links)[linkId].(name := name)]
      ensures linkId !in old(links) ==> links == old(links)
      ensures nodes == old(nodes) && id == old(id) && portSelected == old(portSelected)
      ensures currentNodeId == old(currentNodeId) && currentPortId == old(currentPortId)
      ensures currentLinkId == old(currentLinkId)
    {
      if linkId in links {
        links := links[linkId := links[linkId].(name := name)];
      }
    }

    /** `link`: the link stored under `linkId`, if any. */
    function GetLink(linkId: nat): (r: Option<LinkRecord>)
      reads this
      ensures r.Some? <==> linkId in links
      ensures r.Some? ==> r.value == links[linkId]
    {
      if linkId in links then Some(links[linkId]) else None
    }

    /** `all_links`: every link whose active flag is `active`, each once. */
    method AllLinks(active: bool) returns (r: seq<LinkRecord>)
      requires Valid()
      ensures forall i :: 0 <= i < |r| ==> r[i].id in links && links[r[i].id] == r[i] && r[i].active == active
      ensures forall k :: k in links && links[k].active == active ==> links[k] in r
      ensures forall i, j :: 0 <= i < j < |r| ==> r[i].id != r[j].id
    {
      r := [];
      var pending := links.Keys;
      while pending != {}
        invariant pending <= links.Keys
        invariant forall i :: 0 <= i < |r| ==> r[i].id in links && r[i].id !in pending && links[r[i].id] == r[i]
        invariant forall i :: 0 <= i < |r| ==> r[i].active == active
        invariant forall k :: k in links && k !in pending && links[k].active == active ==> links[k] in r
        invariant forall i, j :: 0 <= i < j < |r| ==> r[i].id != r[j].id
        decreases pending
      {
        var k :| k in pending;
        if links[k].active == active {
          r := r + [links[k]];
        }
        pending := pending - {k};
      }
    }

    /** `port_connected_to`: the far port and node of some link leaving `portId`, if any. */
    method PortConnectedTo(portId: nat) returns (r: Option<(nat, nat)>)
      ensures r.Some? ==> exists k :: k in links && links[k].portFrom == portId && r.value == (links[k].portTo, links[k].nodeTo)
      ensures r.None? ==> forall k :: k in links ==> links[k].portFrom != portId
    {
      var k := LinkFrom(links, portId);
      if k.Some? {
        r := Some((links[k.value].portTo, links[k.value].nodeTo));
      } else {
        r := None;
      }
    }

    /** `port_link`: some link leaving `portId`, if any. */
    method PortLink(portId: nat) returns (r: Option<LinkRecord>)
      ensures r.Some? ==> r.value.portFrom == portId && exists k :: k in links && links[k] == r.value
      ensures r.None? ==> forall k :: k in links ==> links[k].portFrom != portId
    {
      var k := LinkFrom(links, portId);
      if k.Some? {
        r := Some(links[k.value]);
      } else {
        r := None;
      }
    }

    /** A link is selected in the link map. */
    method SelectedLink() returns (r: Option<nat>)
      ensures r.Some? ==> r.value in links && links[r.value].selected
      ensures r.None? ==> forall k :: k in links ==> !links[k].selected
    {
      r := None;
      var pending := links.Keys;
      while pending != {}
        invariant pending <= links.Keys
        invariant r.Some? ==> r.value in links && links[r.value].selected
        invariant r.None? ==> forall k :: k in links && k !in pending ==> !links[k].selected
        decreases pending
      {
        var k :| k in pending;
        if links[k].selected {
          r := Some(k);
        }
        pending := pending - {k};
      }
    }

    /** A selected node, found the same way as the selected link. */
    method SelectedNode() returns (r: Option<nat>)
      ensures r.Some? ==> r.value in nodes && nodes[r.value].selected
      ensures r.None? ==> forall k :: k in nodes ==> !nodes[k].selected
    {
      r := None;
      var pending := nodes.Keys;
      while pending != {}
        invariant pending <= nodes.Keys
        invariant r.Some? ==> r.value in nodes && nodes[r.value].selected
        invariant r.None? ==> forall k :: k in nodes && k !in pending ==> !nodes[k].selected
        decreases pending
      {
        var k :| k in pending;
        if nodes[k].selected {
          r := Some(k);
        }
        pending := pending - {k};
      }
    }

    /**
     * `delete_selected`: one selected link (the last one the iteration
     * meets) goes, then one selected node with all its links. Which of
     * several selected ones is taken depends on the hash order, so the
     * chosen ids are returned as ghosts.
     */
    method DeleteSelected() returns (ghost linkId: Option<nat>, ghost nodeId: Option<nat>)
      requires Valid()
      modifies this
      ensures Valid()
      ensures linkId.Some? ==> linkId.value in old(links) && old(links)[linkId.value].selected
      ensures linkId.None? ==> forall k :: k in old(links) ==> !old(links)[k].selected
      ensures nodeId.Some? ==> nodeId.value in old(nodes) && old(nodes[nodeId.value].selected)
      ensures nodeId.None? ==> forall k :: k in old(nodes) ==> !old(nodes[k].selected)
      ensures nodes == if nodeId.Some? then old(nodes) - {nodeId.value} else old(nodes)
      ensures var kept := if linkId.Some? then old(links) - {linkId.value} else old(links);
        links == if nodeId.Some? then LinksAvoiding(kept, {nodeId.value}) else kept
      ensures id == old(id) && portSelected == old(portSelected)
      ensures currentNodeId == old(currentNodeId) && currentPortId == old(currentPortId)
      ensures currentLinkId == old(currentLinkId)
    {
      var l := SelectedLink();
      var n := SelectedNode();
      linkId, nodeId := l, n;
      if l.Some? {
        RemoveLink(l.value);
      }
      if n.Some? {
        RemoveNode(n.value);
      }
    }

    // Selection and the two-click linking.

    /** `unselect_nodes`: every node and every port of every node ends up unselected; nothing else changes. */
    method UnselectNodes()
      modifies nodes.Values, PortObjects()
      ensures forall k :: k in nodes ==> !nodes[k].selected
      ensures forall k :: k in nodes ==> forall p :: p in nodes[k].ports.Values ==> !p.selected
      ensures forall k :: k in nodes ==>
        nodes[k].ports == old(nodes[k].ports) && nodes[k].properties == old(nodes[k].properties)
        && nodes[k].light == old(nodes[k].light)
        && nodes[k].numPortsIn == old(nodes[k].numPortsIn) && nodes[k].numPortsOut == old(nodes[k].numPortsOut)
    {
      ghost var allPorts := PortObjects();
      forall k | k in nodes
        ensures nodes[k].ports.Values <= allPorts
      {
        assert nodes[k] in nodes.Values;
      }
      var pending := nodes.Keys;
      while pending != {}
        invariant pending <= nodes.Keys
        invariant forall k :: k in nodes ==>
          nodes[k].ports == old(nodes[k].ports) && nodes[k].properties == old(nodes[k].properties)
          && nodes[k].light == old(nodes[k].light)
          && nodes[k].numPortsIn == old(nodes[k].numPortsIn) && nodes[k].numPortsOut == old(nodes[k].numPortsOut)
        invariant forall k :: k in nodes && k !in pending ==> !nodes[k].selected
        invariant forall k :: k in nodes && k !in pending ==> forall p :: p in nodes[k].ports.Values ==> !p.selected
        decreases pending
      {
        var k :| k in pending;
        UnselectNode(nodes[k]);
        pending := pending - {k};
      }
    }

    /** `unselect_links`: every link ends up unselected; nothing else about the links changes. */
    method UnselectLinks()
      requires Valid()
      modifies this
      ensures Valid()
      ensures links.Keys == old(links).Keys
      ensures forall k :: k in links ==> links[k] == old(links)[k].(selected := false)
      ensures nodes == old(nodes) && id == old(id) && portSelected == old(portSelected)
      ensures currentNodeId == old(currentNodeId) && currentPortId == old(currentPortId)
      ensures currentLinkId == old(currentLinkId)
    {
      links := map k | k in links :: links[k].(selected := false);
    }

    /** `unselect_all`: nodes, ports and links all end up unselected. */
    method UnselectAll()
      requires Valid()
      modifies this, nodes.Values, PortObjects()
      ensures Valid()
      ensures nodes == old(nodes) && id == old(id) && portSelected == old(portSelected)
      ensures forall k :: k in nodes ==> !nodes[k].selected
      ensures forall k :: k in nodes ==> forall p :: p in nodes[k].ports.Values ==> !p.selected
      ensures forall k :: k in links ==> !links[k].selected
      ensures forall k :: k in nodes ==>
        nodes[k].ports == old(nodes[k].ports) && nodes[k].properties == old(nodes[k].properties)
        && nodes[k].light == old(nodes[k].light)
      ensures links.Keys == old(links).Keys
      ensures forall k :: k in links ==> links[k] == old(links)[k].(selected := false)
      ensures currentNodeId == old(currentNodeId) && currentPortId == old(currentPortId)
      ensures currentLinkId == old(currentLinkId)
    {
      UnselectNodes();
      UnselectLinks();
    }

    /** `set_selected_port`: remembering a port first unselects everything; forgetting it does not. */
    method SetSelectedPort(port: Option<PortRef>)
      requires Valid()
      requires port.Some? ==> port.value.direction == Input || port.value.direction == Output
      modifies this, nodes.Values, PortObjects()
      ensures Valid()
      ensures nodes == old(nodes) && id == old(id)
      ensures portSelected == port
      ensures forall k :: k in nodes ==> nodes[k].ports == old(nodes[k].ports)
      ensures port.None? ==> links == old(links)
      ensures port.Some? ==>
        links.Keys == old(links).Keys && forall k :: k in links ==> links[k] == old(links)[k].(selected := false)
      ensures currentNodeId == old(currentNodeId) && currentPortId == old(currentPortId)
      ensures currentLinkId == old(currentLinkId)
    {
      if port.Some? {
        UnselectAll();
      }
      portSelected := port;
    }

    /** The remembered form of the port `portId` of node `nodeId`. */
    function PortRefOf(nodeId: nat, portId: nat): (r: PortRef)
      requires Valid() && nodeId in nodes && portId in nodes[nodeId].ports
      reads this, nodes.Values
      ensures r.nodeId == nodeId && r.portId == portId
      ensures r.direction == Input || r.direction == Output
    {
      PortRef(nodeId, portId, nodes[nodeId].ports[portId].direction)
    }

    /**
     * A press on a port: everything is unselected, then the port's selection
     * flips, so the port ends up selected.
     */
    method PressOnPort(nodeId: nat, portId: nat)
      requires Valid() && nodeId in nodes && portId in nodes[nodeId].ports
      modifies this, nodes.Values, PortObjects()
      ensures Valid()
      ensures nodes == old(nodes) && id == old(id) && portSelected == old(portSelected)
      ensures portId in nodes[nodeId].ports && nodes[nodeId].ports[portId].selected
      ensures forall k :: k in nodes ==> !nodes[k].selected
      ensures forall k :: k in links ==> !links[k].selected
    {
      UnselectAll();
      var port := nodes[nodeId].ports[portId];
      assert port in old(nodes[nodeId].ports.Values);
      assert port in old(PortObjects()) by {
        assert old(nodes[nodeId]) in old(nodes.Values);
      }
      port.ToggleSelected();
    }

    /** A press on a node: everything is unselected, then the node's selection flips, so the node ends up selected. */
    method PressOnNode(nodeId: nat)
      requires Valid() && nodeId in nodes
      modifies this, nodes.Values, PortObjects()
      ensures Valid()
      ensures nodes == old(nodes) && id == old(id) && portSelected == old(portSelected)
      ensures nodes[nodeId].selected
      ensures forall k :: k in nodes ==> forall p :: p in nodes[k].ports.Values ==> !p.selected
      ensures forall k :: k in links ==> !links[k].selected
    {
      UnselectAll();
      nodes[nodeId].ToggleSelected();
    }

    /**
     * A release on a port, the second half of linking by clicks. An unlinked
     * port with nothing remembered becomes the remembered port. An unlinked
     * port with a compatible remembered port gets a new link whose `from`
     * end is the output of the two, offered to `add_link`; either way the
     * remembered port is then forgotten. A linked port only forgets.
     */
    method ReleaseOnPort(nodeId: nat, portId: nat)
      requires Valid() && nodeId in nodes && portId in nodes[nodeId].ports
      modifies this, nodes.Values, PortObjects()
      ensures Valid()
      ensures nodes == old(nodes) && id == old(id)
      ensures !PortFree(old(links), portId) ==> portSelected.None? && links == old(links)
      ensures PortFree(old(links), portId) && old(portSelected).None? ==>
        portSelected == Some(old(PortRefOf(nodeId, portId)))
      ensures PortFree(old(links), portId) && old(portSelected).Some? ==> portSelected.None?
      ensures PortFree(old(links), portId) && old(portSelected).Some? && !old(PortsCompatible(portSelected, PortRefOf(nodeId, portId))) ==>
        links == old(links) && currentLinkId == old(currentLinkId)
      ensures PortFree(old(links), portId) && old(PortsCompatible(portSelected, PortRefOf(nodeId, portId))) ==>
        var link := ClickedLink(old(currentLinkId) + 1, old(portSelected).value, old(PortRefOf(nodeId, portId)));
        links == WithLink(old(links), link) && currentLinkId == old(currentLinkId) + 1
    {
      var clicked := PortRefOf(nodeId, portId);
      var linked := PortIsLinked(portId);
      if linked.None? {
        if portSelected.Some? {
          if PortsCompatible(portSelected, clicked) {
            var from, to := portSelected.value, clicked;
            if to.direction == Output {
              from, to := to, from;
            }
            var link := CreateLink(from.nodeId, to.nodeId, from.portId, to.portId);
            AddLink(link);
          }
          SetSelectedPort(None);
        } else {
          SetSelectedPort(Some(clicked));
        }
      } else {
        SetSelectedPort(None);
      }
    }

    /** A release anywhere but on a port forgets the remembered port. */
    method ReleaseElsewhere()
      requires Valid()
      modifies this, nodes.Values, PortObjects()
      ensures Valid()
      ensures portSelected.None?
      ensures nodes == old(nodes) && links == old(links) && id == old(id)
    {
      SetSelectedPort(None);
    }

    /** `render_xml`: the events of the graph written in some hash order of its maps. */
    method RenderXml() returns (events: seq<XmlEvent>, ghost order: DocumentOrder)
      ensures DocumentOrderFits(Snapshot(), order)
      ensures events == DocumentEvents(Snapshot(), order)
      ensures Saveable(Snapshot()) ==> forall id: nat :: Fold(LoadStart(id, map[]), events).graph == Snapshot()
    {
      var g := Snapshot();
      events, order := WriteDocument(g);
      SnapshotKept();
      if Saveable(g) {
        forall id: nat
          ensures Fold(LoadStart(id, map[]), events).graph == g
        {
          RenderLoadRoundTrip(g, order, id);
        }
      }
    }

    // Loading.

    /** The loading state the graph and the loop's cursor stand for. */
    ghost function View(c: Cursor): LoadState
      reads this, nodes.Values, PortObjects(), CursorObjects(c)
    {
      LoadState(Snapshot(), currentNodeId, currentPortId, currentLinkId,
        if c.node.Some? then Some(NodeSnapshot(c.node.value)) else None, c.nodeProps,
        if c.port.Some? then Some(PortSnapshot(c.port.value)) else None, c.portProps,
        c.link, c.status)
    }

    /**
     * The open node is not yet in the graph and keeps its own invariant; the
     * open port belongs neither to the graph nor to the open node.
     */
    ghost predicate LoadFrame(c: Cursor)
      reads this, nodes.Values, PortObjects(), NodeSet(c.node)
    {
      Valid()
      && (c.node.Some? ==> c.node.value !in nodes.Values && c.node.value.Valid())
      && (c.port.Some? ==> c.port.value !in PortObjects())
      && (c.port.Some? && c.node.Some? ==> c.port.value !in c.node.value.ports.Values)
    }

    /** While the graph's own objects stay untouched, so does its value. */
    twostate lemma SnapshotKept()
      requires unchanged(this) && unchanged(nodes.Values) && unchanged(PortObjects())
      ensures Snapshot() == old(Snapshot()) && PortObjects() == old(PortObjects())
    {
    }

    /** While the graph's objects and the open node stay untouched, the loading frame and state hold. */
    twostate lemma CursorKept(c: Cursor)
      requires old(LoadFrame(c))
      requires unchanged(this) && unchanged(nodes.Values) && unchanged(PortObjects())
      requires unchanged(NodeSet(c.node)) && unchanged(PortSet(c.port))
      requires c.node.Some? ==> unchanged(c.node.value.ports.Values)
      ensures LoadFrame(c) && View(c) == old(View(c))
    {
    }

    /** The `Graph` start tag: an `id` attribute, when present, becomes the graph's id. */
    method LoadStartGraph(c: Cursor, attrs: map<string, string>) returns (d: Cursor)
      requires LoadFrame(c) && c.status == Reading
      modifies this
      ensures LoadFrame(d)
      ensures portSelected == old(portSelected)
      ensures View(d) == StartGraph(old(View(c)), attrs)
      ensures nodes == old(nodes) && d.node == c.node && d.port == c.port
    {
      d := c;
      if "id" in attrs {
        var parsed := ParseU32(attrs["id"]);
        if parsed.None? {
          d := c.(status := Panicked);
        } else {
          SetId(parsed.value);
        }
      }
    }

    /** The `Node` start tag: a new node object becomes the open node. */
    method LoadStartNode(c: Cursor, attrs: map<string, string>) returns (d: Cursor)
      requires LoadFrame(c) && c.status == Reading
      ensures LoadFrame(d)
      ensures portSelected == old(portSelected)
      ensures View(d) == StartNode(old(View(c)), attrs)
      ensures d.port == c.port
      ensures d.node.Some? ==> fresh(d.node.value) || d.node == c.node
    {
      var nodeId := RequiredU32(attrs, "id");
      var light := ParseBool(AttrOr(attrs, "light", "false"));
      if nodeId.None? || "name" !in attrs || "type" !in attrs || light.None? {
        d := c.(status := Panicked);
      } else {
        var node := NewNode(nodeId.value, attrs["name"], TypeFromStr(attrs["type"]), light.value);
        SnapshotKept();
        d := c.(node := Some(node));
      }
    }

    /** The `Port` start tag: a new port object becomes the open port. */
    method LoadStartPort(c: Cursor, attrs: map<string, string>) returns (d: Cursor)
      requires LoadFrame(c) && c.status == Reading
      ensures LoadFrame(d)
      ensures portSelected == old(portSelected)
      ensures View(d) == StartPort(old(View(c)), attrs)
      ensures d.node == c.node
      ensures d.port.Some? ==> fresh(d.port.value) || d.port == c.port
    {
      var portId := RequiredU32(attrs, "id");
      if portId.None? || "name" !in attrs || "direction" !in attrs {
        d := c.(status := Panicked);
      } else {
        var presence := PresenceFromStr(AttrOr(attrs, "presence", PresenceName(Always)));
        var port := new Port(portId.value, attrs["name"], DirectionFromStr(attrs["direction"]), presence);
        CursorKept(c);
        d := c.(port := Some(port));
      }
    }

    /** The `Link` start tag: a new link record becomes the open link. */
    method LoadStartLink(c: Cursor, attrs: map<string, string>) returns (d: Cursor)
      requires LoadFrame(c) && c.status == Reading
      ensures LoadFrame(d)
      ensures portSelected == old(portSelected)
      ensures View(d) == StartLink(old(View(c)), attrs)
      ensures d.node == c.node && d.port == c.port
    {
      var linkId := RequiredU32(attrs, "id");
      var nodeFrom := RequiredU32(attrs, "node_from");
      var nodeTo := RequiredU32(attrs, "node_to");
      var portFrom := RequiredU32(attrs, "port_from");
      var portTo := RequiredU32(attrs, "port_to");
      var active := if "active" in attrs then ParseBool(attrs["active"]) else None;
      if linkId.None? || nodeFrom.None? || nodeTo.None? || portFrom.None? || portTo.None? || active.None? {
        d := c.(status := Panicked);
      } else {
        var link := LinkRecord(linkId.value, nodeFrom.value, nodeTo.value, portFrom.value, portTo.value, "", true, false);
        link := link.(active := active.value, name := AttrOr(attrs, "name", ""));
        d := c.(link := Some(link));
      }
    }

    /** The `Node` end tag: the open node takes its gathered properties and is added to the graph. */
    method LoadEndNode(c: Cursor) returns (d: Cursor)
      requires LoadFrame(c) && c.status == Reading
      modifies this, NodeSet(c.node)
      ensures LoadFrame(d)
      ensures portSelected == old(portSelected)
      ensures View(d) == EndNode(old(View(c)))
      ensures d.port == c.port && d.node.None?
    {
      if c.node.Some? {
        d := LoadAddNode(c);
      } else {
        d := c;
      }
    }

    /** The `Node` end tag with a node open: it takes its gathered properties and joins the graph. */
    method LoadAddNode(c: Cursor) returns (d: Cursor)
      requires LoadFrame(c) && c.status == Reading && c.node.Some?
      modifies this, NodeSet(c.node)
      ensures LoadFrame(d)
      ensures portSelected == old(portSelected)
      ensures View(d) == EndNode(old(View(c)))
      ensures d.port == c.port && d.node.None?
    {
      ghost var s := View(c);
      var node := c.node.value;
      node.UpdateProperties(c.nodeProps);
      SnapshotKept();
      NodeSnapshotKept(node);
      ghost var nv := NodeSnapshot(node);
      assert nv == s.currentNode.value.(properties := Updated(s.currentNode.value.properties, s.nodeProps));
      AddNode(node);
      assert Snapshot() == s.graph.(nodes := s.graph.nodes[node.id := nv]);
      UpdateCurrentNodeId(node.id);
      d := c.(node := None, nodeProps := map[]);
    }

    /**
     * The `Port` end tag: inside an open node the open port takes its
     * gathered properties and joins that node; either way no port is open
     * afterwards.
     */
    method LoadEndPort(c: Cursor) returns (d: Cursor)
      requires LoadFrame(c) && c.status == Reading
      modifies this, NodeSet(c.node), PortSet(c.port)
      ensures LoadFrame(d)
      ensures portSelected == old(portSelected)
      ensures View(d) == EndPort(old(View(c)))
      ensures d.node == c.node && (d.port.None? || d.port == c.port)
    {
      if c.port.Some? && c.node.Some? {
        if c.port.value.direction != Input && c.port.value.direction != Output {
          d := c.(status := Panicked);
        } else {
          d := LoadAttachPort(c);
        }
      } else {
        d := c.(port := None);
      }
    }

    /** The `Port` end tag with a node and a valid port open: the port takes its gathered properties and joins the node. */
    method LoadAttachPort(c: Cursor) returns (d: Cursor)
      requires LoadFrame(c) && c.status == Reading && c.port.Some? && c.node.Some?
      requires c.port.value.direction == Input || c.port.value.direction == Output
      modifies this, NodeSet(c.node), PortSet(c.port)
      ensures LoadFrame(d)
      ensures portSelected == old(portSelected)
      ensures View(d) == EndPort(old(View(c)))
      ensures d.node == c.node && d.port.None?
    {
      var port := c.port.value;
      var node := c.node.value;
      port.UpdateProperties(c.portProps);
      AttachPort(node, port);
      SnapshotKept();
      UpdateCurrentPortId(port.id);
      d := c.(port := None, portProps := map[]);
    }

    /** The `Link` end tag: the open link is offered to `add_link`. */
    method LoadEndLink(c: Cursor) returns (d: Cursor)
      requires LoadFrame(c) && c.status == Reading
      modifies this
      ensures LoadFrame(d)
      ensures portSelected == old(portSelected)
      ensures View(d) == EndLink(old(View(c)))
      ensures nodes == old(nodes) && d.node == c.node && d.port == c.port
    {
      if c.link.Some? {
        AddLink(c.link.value);
        UpdateCurrentLinkId(c.link.value.id);
        d := c.(link := None);
      } else {
        d := c;
      }
    }

    /** A `Property` start tag: the property joins the open port's, else the open node's, gathered properties. */
    method LoadStartProperty(c: Cursor, attrs: map<string, string>) returns (d: Cursor)
      requires LoadFrame(c) && c.status == Reading
      ensures LoadFrame(d)
      ensures portSelected == old(portSelected)
      ensures View(d) == StartProperty(old(View(c)), attrs)
      ensures d.node == c.node && d.port == c.port
    {
      if "name" !in attrs || "value" !in attrs {
        d := c.(status := Panicked);
      } else if c.port.Some? {
        d := c.(portProps := c.portProps[attrs["name"] := attrs["value"]]);
      } else if c.node.Some? {
        d := c.(nodeProps := c.nodeProps[attrs["name"] := attrs["value"]]);
      } else {
        d := c;
      }
    }

    /** A start tag, dispatched on the element's name. */
    method LoadStartElement(c: Cursor, name: string, attrs: map<string, string>) returns (d: Cursor)
      requires LoadFrame(c) && c.status == Reading
      modifies this
      ensures LoadFrame(d)
      ensures portSelected == old(portSelected)
      ensures View(d) == Step(old(View(c)), StartElement(name, attrs))
      ensures d.node.Some? ==> fresh(d.node.value) || d.node == c.node
      ensures d.port.Some? ==> fresh(d.port.value) || d.port == c.port
    {
      if name == "Graph" {
        d := LoadStartGraph(c, attrs);
      } else if name == "Node" {
        d := LoadStartNode(c, attrs);
      } else {
        d := LoadStartInner(c, name, attrs);
      }
    }

    /** The start tags that may appear inside a node, and unknown names, which are passed by. */
    method LoadStartInner(c: Cursor, name: string, attrs: map<string, string>) returns (d: Cursor)
      requires LoadFrame(c) && c.status == Reading
      requires name != "Graph" && name != "Node"
      ensures LoadFrame(d)
      ensures portSelected == old(portSelected)
      ensures View(d) == Step(old(View(c)), StartElement(name, attrs))
      ensures d.node == c.node
      ensures d.port.Some? ==> fresh(d.port.value) || d.port == c.port
    {
      if name == "Property" {
        d := LoadStartProperty(c, attrs);
      } else if name == "Port" {
        d := LoadStartPort(c, attrs);
      } else if name == "Link" {
        d := LoadStartLink(c, attrs);
      } else {
        d := c;
      }
    }

    /** An end tag, dispatched on the element's name; `Graph`, `Property` and unknown names change nothing. */
    method LoadEndElement(c: Cursor, name: string) returns (d: Cursor)
      requires LoadFrame(c) && c.status == Reading
      modifies this, NodeSet(c.node), PortSet(c.port)
      ensures LoadFrame(d)
      ensures portSelected == old(portSelected)
      ensures View(d) == Step(old(View(c)), EndElement(name))
      ensures d.node.None? || d.node == c.node
      ensures d.port.None? || d.port == c.port
    {
      if name == "Node" {
        d := LoadEndNode(c);
      } else if name == "Port" {
        d := LoadEndPort(c);
      } else if name == "Link" {
        d := LoadEndLink(c);
      } else {
        d := c;
      }
    }

    /** One event of the reading loop; a reader error stops the loop. */
    method LoadStep(c: Cursor, e: XmlEvent) returns (d: Cursor)
      requires LoadFrame(c) && c.status == Reading
      modifies this, NodeSet(c.node), PortSet(c.port)
      ensures LoadFrame(d)
      ensures portSelected == old(portSelected)
      ensures View(d) == Step(old(View(c)), e)
      ensures d.node.Some? ==> fresh(d.node.value) || d.node == c.node
      ensures d.port.Some? ==> fresh(d.port.value) || d.port == c.port
    {
      match e
      case StartElement(name, attrs) =>
        d := LoadStartElement(c, name, attrs);
      case EndElement(name) =>
        d := LoadEndElement(c, name);
      case ReadError =>
        d := c.(status := Stopped);
      case OtherEvent =>
        d := c;
    }

    /**
     * `load_from_xml`: the graph is cleared, then the document's events are
     * read in order until they run out, the reader fails or a required
     * attribute is missing. The graph ends as the reading of the whole
     * document from the cleared graph describes it.
     */
    method LoadFromXml(events: seq<XmlEvent>) returns (status: LoadStatus)
      requires Valid()
      modifies this
      ensures Valid()
      ensures var s := Fold(LoadStart(old(id), LinksAvoiding(old(links), old(nodes).Keys)), events);
        status == s.status && Snapshot() == s.graph
        && currentNodeId == s.nodeCounter && currentPortId == s.portCounter && currentLinkId == s.linkCounter
      ensures portSelected == old(portSelected)
    {
      RemoveAllNodes();
      var c := Cursor(None, map[], None, map[], None, Reading);
      ghost var start := LoadStart(old(id), LinksAvoiding(old(links), old(nodes).Keys));
      assert Snapshot().nodes == map[];
      assert View(c) == start;
      var i := 0;
      while i < |events| && c.status == Reading
        invariant 0 <= i <= |events|
        invariant LoadFrame(c)
        invariant View(c) == Fold(start, events[..i])
        invariant portSelected == old(portSelected)
        invariant c.node.Some? ==> fresh(c.node.value)
        invariant c.port.Some? ==> fresh(c.port.value)
      {
        ghost var before := View(c);
        c := LoadStep(c, events[i]);
        assert events[..i + 1][..i] == events[..i];
        i := i + 1;
      }
      if i < |events| {
        FoldAppend(start, events[..i], events[i..]);
        FoldAfterEnd(Fold(start, events[..i]), events[i..]);
        assert events[..i] + events[i..] == events;
      } else {
        assert events[..i] == events;
      }
      status := c.status;
    }
  }

  /** A node whose ports are untouched keeps its value except for what changed on the node itself. */
  twostate lemma NodeSnapshotKept(n: Node)
    requires n.ports == old(n.ports) && unchanged(old(n.ports.Values))
    ensures NodeSnapshot(n) == old(NodeSnapshot(n)).(light := n.light, properties := n.properties)
  {
  }

  /**
   * The port's gathered properties are applied and the port joins the node:
   * the node's value gains exactly that port.
   */
  method AttachPort(n: Node, p: Port)
    requires n.Valid() && p !in n.ports.Values
    requires p.direction == Input || p.direction == Output
    modifies n
    ensures n.Valid()
    ensures NodeSnapshot(n) == old(NodeSnapshot(n)).(ports := old(NodeSnapshot(n)).ports[p.id := PortSnapshot(p)])
  {
    PortsSnapshotStore(n.ports, p);
    n.AddPort(p);
  }

  /** `create_node_with_id` followed by `set_light`: a fresh node with no ports and no properties. */
  method NewNode(id: nat, name: string, nodeType: NodeType, light: bool) returns (n: Node)
    ensures fresh(n) && n.Valid() && n.ports == map[]
    ensures NodeSnapshot(n) == NodeValue(id, name, nodeType, light, map[], map[])
  {
    n := new Node(id, name, nodeType);
    n.SetLight(light);
    assert NodeSnapshot(n).ports == map[];
  }

  /** One node and all of its ports end up unselected; nothing else about the node changes. */
  method UnselectNode(n: Node)
    modifies n, n.ports.Values
    ensures !n.selected
    ensures forall p :: p in n.ports.Values ==> !p.selected
    ensures n.ports == old(n.ports) && n.properties == old(n.properties) && n.light == old(n.light)
    ensures n.numPortsIn == old(n.numPortsIn) && n.numPortsOut == old(n.numPortsOut)
  {
    n.SetSelected(false);
    n.UnselectAllPorts();
    forall p | p in n.ports.Values
      ensures !p.selected
    {
      var j :| j in n.ports && n.ports[j] == p;
    }

  }

  /** Some link of `links` starting or ending at the node, if any (the search of `node_is_linked`). */
  method LinkTouchingNode(links: map<nat, LinkRecord>, nodeId: nat) returns (r: Option<nat>)
    ensures r.Some? ==> r.value in links && TouchesNode(links[r.value], nodeId)
    ensures r.None? ==> forall k :: k in links ==> !TouchesNode(links[k], nodeId)
  {
    var pending := links.Keys;
    while pending != {}
      invariant pending <= links.Keys
      invariant forall k :: k in links && k !in pending ==> !TouchesNode(links[k], nodeId)
      decreases pending
    {
      var k :| k in pending;
      if TouchesNode(links[k], nodeId) {
        return Some(k);
      }
      pending := pending - {k};
    }
    return None;
  }

  /**
   * The `while let` loop of `remove_node`: links touching the node go, one
   * `node_is_linked` answer at a time, until none is left.
   */
  method RemoveLinksOf(links: map<nat, LinkRecord>, nodeId: nat) returns (remaining: map<nat, LinkRecord>)
    ensures remaining == LinksAvoiding(links, {nodeId})
  {
    remaining := links;
    var linkId := LinkTouchingNode(remaining, nodeId);
    while linkId.Some?
      invariant remaining.Keys <= links.Keys
      invariant forall k :: k in remaining ==> remaining[k] == links[k]
      invariant forall k :: k in links && !TouchesNode(links[k], nodeId) ==> k in remaining
      invariant linkId.Some? ==> linkId.value in remaining && TouchesNode(remaining[linkId.value], nodeId)
      invariant linkId.None? ==> forall k :: k in remaining ==> !TouchesNode(remaining[k], nodeId)
      decreases remaining.Keys
    {
      remaining := remaining - {linkId.value};
      linkId := LinkTouchingNode(remaining, nodeId);
    }
  }

  /**
   * After `i` of the distinct `ids` were removed: the removed ids are those
   * `i`, all keys of `before`, and `nodes` is `before` without them, while
   * the ids still to go are present.
   */
  ghost predicate Cleared(ids: seq<nat>, i: nat, removed: set<nat>, before: map<nat, Node>, nodes: map<nat, Node>)
  {
    i <= |ids| && removed <= before.Keys && nodes == before - removed
    && (forall j :: 0 <= j < i ==> ids[j] in removed)
    && (forall k :: k in removed ==> exists j :: 0 <= j < i && ids[j] == k)
    && (forall j :: i <= j < |ids| ==> ids[j] in nodes)
    && (forall j, l :: 0 <= j < l < |ids| ==> ids[j] != ids[l])
  }

  /** Removing the next id keeps the account. */
  lemma ClearedStep(ids: seq<nat>, i: nat, removed: set<nat>, before: map<nat, Node>, nodes: map<nat, Node>)
    requires Cleared(ids, i, removed, before, nodes) && i < |ids|
    ensures ids[i] in nodes
    ensures Cleared(ids, i + 1, removed + {ids[i]}, before, nodes - {ids[i]})
  {
    forall j | i + 1 <= j < |ids|
      ensures ids[j] in nodes - {ids[i]}
    {
      assert ids[i] != ids[j];
    }
  }

  /** Once every id was removed, when the ids covered all of `before`, nothing is left. */
  lemma ClearedAll(ids: seq<nat>, removed: set<nat>, before: map<nat, Node>, nodes: map<nat, Node>)
    requires Cleared(ids, |ids|, removed, before, nodes)
    requires forall k :: k in before ==> exists j :: 0 <= j < |ids| && ids[j] == k
    ensures removed == before.Keys && nodes == map[]
  {
    assert nodes.Keys == {};
  }

  /** Avoiding one more node removes that node's links from what was left. */
  lemma LinksAvoidingGrow(links: map<nat, LinkRecord>, ids: set<nat>, nodeId: nat)
    ensures LinksAvoiding(LinksAvoiding(links, ids), {nodeId}) == LinksAvoiding(links, ids + {nodeId})
  {
  }
}
