/**
 * The element operations of `app.rs` that work on the graph view: adding an
 * element from the catalog with one port per always-present pad, creating a
 * port that carries its caps, and reading or updating the properties of
 * elements and pads. The element registry is the list of pad templates of
 * the element's factory.
 */
module App {
  import opened Wrappers
  import opened Text
  import opened Property
  import opened Port
  import opened Node
  import GraphView
  import opened GpsPad
  import GpsElement

  /** The prefix of a new port's name: "sink_" for an input, "src_" for an output, "?" otherwise. */
  function PortPrefix(direction: PortDirection): string
  {
    match direction
    case Input => "sink_"
    case Output => "src_"
    case _ => "?"
  }

  /** The name of a port added when its node already has `count` ports on that side. */
  function PortName(direction: PortDirection, count: nat): string
  {
    PortPrefix(direction) + NatToString(count)
  }

  /** The properties of a new port: the caps under the hidden name "_caps", if there are any. */
  function CapsProperties(caps: string): Properties
  {
    if caps == "" then map[] else map["_caps" := caps]
  }

  /**
   * A new port's properties are what the batch update of the caps under
   * "_caps" leaves in an empty map, since an update drops empty values; none
   * of them is shown.
   */
  lemma CapsPropertiesHidden(caps: string)
    ensures CapsProperties(caps) == Updated(map[], map["_caps" := caps])
    ensures Visible(CapsProperties(caps)) == map[]
  {
    assert IsHidden("_caps");
    if caps != "" {
      assert Updated(map[], map["_caps" := caps]).Keys == {"_caps"};
    } else {
      assert Updated(map[], map["_caps" := caps]).Keys == {};
    }
  }

  /**
   * Port names tell their side and their count apart: two names are equal
   * exactly when both the side and the count are.
   */
  lemma PortNameInjective(d1: PortDirection, n1: nat, d2: PortDirection, n2: nat)
    requires d1 == Input || d1 == Output
    requires d2 == Input || d2 == Output
    ensures PortName(d1, n1) == PortName(d2, n2) <==> d1 == d2 && n1 == n2
  {
    if PortName(d1, n1) == PortName(d2, n2) {
      assert PortName(d1, n1)[1] == PortName(d2, n2)[1];
      assert d1 == d2;
      var p := |PortPrefix(d1)|;
      assert PortName(d1, n1)[p..] == NatToString(n1);
      assert PortName(d2, n2)[p..] == NatToString(n2);
    }
  }

  /** The count can be read back from a port name: the digits after the prefix parse to it. */
  lemma PortNameDecodes(direction: PortDirection, count: nat)
    requires direction == Input || direction == Output
    requires count <= U32_MAX
    ensures StartsWith(PortName(direction, count), PortPrefix(direction))
    ensures ParseU32(PortName(direction, count)[|PortPrefix(direction)|..]) == Some(count)
  {
    assert PortName(direction, count)[|PortPrefix(direction)|..] == NatToString(count);
    ParseNatToString(count);
  }

  /** The ids of the ports facing `direction`: the keys of `Facing`, as a set. */
  function FacingIds(ports: map<nat, Port>, direction: PortDirection): set<nat>
  {
    set k | k in ports && ports[k].direction == direction
  }

  /** On either side, as many ids as `all_ports` returns ports. */
  lemma FacingIdsCount(ports: map<nat, Port>, direction: PortDirection)
    requires direction == Input || direction == Output
    ensures FacingIds(ports, direction) == Facing(ports, direction).Keys
    ensures |FacingIds(ports, direction)| == |Facing(ports, direction)|
  {
    assert FacingIds(ports, direction) == Facing(ports, direction).Keys;
  }

  /** The other side of a port: input for output and output for input. */
  function Opposite(direction: PortDirection): PortDirection
  {
    if direction == Input then Output else Input
  }

  /** A port added under a new id joins its own side and no other. */
  lemma FacingIdsAdd(ports: map<nat, Port>, port: Port)
    requires port.id !in ports
    ensures FacingIds(ports[port.id := port], port.direction) == FacingIds(ports, port.direction) + {port.id}
    ensures |FacingIds(ports[port.id := port], port.direction)| == |FacingIds(ports, port.direction)| + 1
    ensures port.direction != PortDirection.All ==>
      FacingIds(ports[port.id := port], Opposite(port.direction)) == FacingIds(ports, Opposite(port.direction))
  {
    assert FacingIds(ports[port.id := port], port.direction) == FacingIds(ports, port.direction) + {port.id};
  }

  /**
   * The ports made so far, in order, carry the expected names and
   * properties, face `direction` and are always present.
   */
  ghost predicate AllMade(made: seq<Port>, names: seq<string>, props: seq<Properties>, direction: PortDirection)
    reads made
  {
    |made| <= |names| && |made| <= |props|
    && forall j :: 0 <= j < |made| ==>
      made[j].name == names[j] && made[j].properties == props[j]
      && made[j].direction == direction && made[j].presence == Always
  }

  lemma AllMadeAppend(made: seq<Port>, port: Port, names: seq<string>, props: seq<Properties>, direction: PortDirection)
    requires AllMade(made, names, props, direction) && |made| < |names| && |made| < |props|
    requires port.name == names[|made|] && port.properties == props[|made|]
    requires port.direction == direction && port.presence == Always
    ensures AllMade(made + [port], names, props, direction)
  {
  }

  /** The names of `n` ports added one after another to a side that already has `start`. */
  function PadPortNames(direction: PortDirection, start: nat, n: nat): (names: seq<string>)
    ensures |names| == n
  {
    if n == 0 then [] else PadPortNames(direction, start, n - 1) + [PortName(direction, start + n - 1)]
  }

  /** The properties of the ports made for `pads`, one per pad, in order. */
  function PadCaps(pads: seq<PadInfo>): (props: seq<Properties>)
    ensures |props| == |pads|
  {
    if pads == [] then []
    else PadCaps(pads[..|pads| - 1]) + [CapsProperties(pads[|pads| - 1].caps.UnwrapOr(""))]
  }

  /** The name and the properties of the port made for the `i`-th pad. */
  lemma PadPortAt(direction: PortDirection, start: nat, pads: seq<PadInfo>, i: nat)
    requires i < |pads|
    ensures PadPortNames(direction, start, |pads|)[i] == PortName(direction, start + i)
    ensures PadCaps(pads)[i] == CapsProperties(pads[i].caps.UnwrapOr(""))
  {
    PadPortNamesAt(direction, start, |pads|);
    PadCapsAt(pads);
  }

  /** The `j`-th port added is named after its side and the count before it. */
  lemma {:induction false} PadPortNamesAt(direction: PortDirection, start: nat, n: nat)
    ensures forall j :: 0 <= j < n ==> PadPortNames(direction, start, n)[j] == PortName(direction, start + j)
  {
    if n > 0 {
      PadPortNamesAt(direction, start, n - 1);
    }
  }

  /** The `j`-th port added holds the `j`-th pad's caps. */
  lemma {:induction false} PadCapsAt(pads: seq<PadInfo>)
    ensures forall j :: 0 <= j < |pads| ==> PadCaps(pads)[j] == CapsProperties(pads[j].caps.UnwrapOr(""))
  {
    if pads != [] {
      var n := |pads| - 1;
      PadCapsAt(pads[..n]);
      assert forall j :: 0 <= j < n ==> pads[..n][j] == pads[j];
    }
  }

  /** The ports one loop adds have pairwise different names. */
  lemma PadPortNamesDistinct(direction: PortDirection, start: nat, n: nat)
    requires direction == Input || direction == Output
    ensures forall i, j :: 0 <= i < j < n ==> PadPortNames(direction, start, n)[i] != PadPortNames(direction, start, n)[j]
  {
    forall i, j | 0 <= i < j < n
      ensures PadPortNames(direction, start, n)[i] != PadPortNames(direction, start, n)[j]
    {
      PadPortNamesTwo(direction, start, n, i, j);
    }
  }

  lemma PadPortNamesTwo(direction: PortDirection, start: nat, n: nat, i: nat, j: nat)
    requires direction == Input || direction == Output
    requires i < j < n
    ensures PadPortNames(direction, start, n)[i] != PadPortNames(direction, start, n)[j]
  {
    PadPortNamesAt(direction, start, n);
    assert PadPortNames(direction, start, n)[i] == PortName(direction, start + i);
    assert PadPortNames(direction, start, n)[j] == PortName(direction, start + j);
    PortNameInjective(direction, start + i, direction, start + j);
  }

  /**
   * `create_port_with_caps`: a new port with the next port id, named after
   * its side and the number of ports the node already has there, holding
   * the caps, and added to the node. The source looks the node up with a
   * panic when it is missing, and adding a port facing neither way panics.
   */
  method CreatePortWithCaps(gv: GraphView.GraphView, nodeId: nat, direction: PortDirection,
                            presence: PortPresence, caps: string, ghost node: Node) returns (id: nat)
    requires nodeId in gv.nodes && node == gv.nodes[nodeId] && node.Valid()
    requires direction == Input || direction == Output
    modifies gv`currentPortId, node
    ensures node.Valid()
    ensures id == old(gv.currentPortId) + 1 && gv.currentPortId == id
    ensures node.properties == old(node.properties)
    ensures id in node.ports && fresh(node.ports[id])
    ensures node.ports == old(node.ports)[id := node.ports[id]]
    ensures node.ports[id].name == PortName(direction, old(|FacingIds(node.ports, direction)|))
    ensures node.ports[id].direction == direction && node.ports[id].presence == presence
    ensures node.ports[id].properties == CapsProperties(caps) && !node.ports[id].selected
    ensures node.selected == old(node.selected) && node.light == old(node.light)
    ensures direction == Input ==> node.numPortsIn == old(node.numPortsIn) + 1 && node.numPortsOut == old(node.numPortsOut)
    ensures direction == Output ==> node.numPortsOut == old(node.numPortsOut) + 1 && node.numPortsIn == old(node.numPortsIn)
  {
    var count := |gv.nodes[nodeId].AllPorts(direction)|;
    FacingIdsCount(node.ports, direction);
    var port := gv.CreatePort(PortName(direction, count), direction, presence);
    id := port.id;
    port.UpdateProperties(map["_caps" := caps]);
    CapsPropertiesHidden(caps);
    var found := gv.GetNode(nodeId);
    if found.Some? {
      gv.AddPortToNode(found.value, port);
    }
  }

  /**
   * The state of a loop of `add_new_element` after `i` pads: `node` is
   * still the view's node `nodeId` and valid; the port counter advanced by
   * `i`; the node holds its ports from before the loop, under the same ids,
   * and the `i` ports made since, under the next ids, with the expected
   * names and properties; `i` more ports face `direction`, as many as before
   * face the other way.
   */
  ghost predicate Progress(gv: GraphView.GraphView, node: Node, nodeId: nat, direction: PortDirection,
                           base: nat, oldPorts: map<nat, Port>, start: nat, otherStart: nat,
                           expected: seq<string>, capsList: seq<Properties>, i: nat, made: seq<Port>)
    reads gv, node, made
  {
    nodeId in gv.nodes && gv.nodes[nodeId] == node && node.Valid()
    && gv.currentPortId == base + i
    && LoopPorts(node.ports, base, oldPorts, i, made)
    && AllMade(made, expected, capsList, direction)
    && |FacingIds(node.ports, direction)| == start + i
    && |FacingIds(node.ports, Opposite(direction))| == otherStart
  }

  /** Before the first pad: nothing made yet, the node's ports are those from before. */
  lemma ProgressStart(gv: GraphView.GraphView, node: Node, nodeId: nat, direction: PortDirection,
                      base: nat, oldPorts: map<nat, Port>, start: nat, otherStart: nat,
                      expected: seq<string>, capsList: seq<Properties>)
    requires nodeId in gv.nodes && node == gv.nodes[nodeId] && node.Valid()
    requires base == gv.currentPortId && oldPorts == node.ports && forall k :: k in oldPorts ==> k <= base
    requires start == |FacingIds(node.ports, direction)| && otherStart == |FacingIds(node.ports, Opposite(direction))|
    ensures Progress(gv, node, nodeId, direction, base, oldPorts, start, otherStart, expected, capsList, 0, [])
  {
  }

  /**
   * The node's counters after `i` pads: `i` more on the side the loop adds
   * to, the same on the other side; its properties untouched.
   */
  ghost predicate Counted(node: Node, direction: PortDirection, ins: int, outs: int, props: Properties, i: nat)
    reads node
  {
    node.properties == props && CountersAdvanced(node, direction, ins, outs, i)
  }

  /** The body of a loop of `add_new_element`: one more port, for the `i`-th pad. */
  method AddPadPort(gv: GraphView.GraphView, nodeId: nat, direction: PortDirection, caps: string, ghost node: Node,
                    ghost base: nat, ghost oldPorts: map<nat, Port>, ghost start: nat, ghost otherStart: nat,
                    ghost expected: seq<string>, ghost capsList: seq<Properties>, ghost i: nat, ghost made: seq<Port>,
                    ghost ins: int, ghost outs: int, ghost props: Properties)
    returns (ghost made': seq<Port>)
    requires direction == Input || direction == Output
    requires Progress(gv, node, nodeId, direction, base, oldPorts, start, otherStart, expected, capsList, i, made)
    requires i < |expected| && i < |capsList|
    requires expected[i] == PortName(direction, start + i) && capsList[i] == CapsProperties(caps)
    modifies gv`currentPortId, node
    requires Counted(node, direction, ins, outs, props, i)
    ensures Progress(gv, node, nodeId, direction, base, oldPorts, start, otherStart, expected, capsList, i + 1, made')
    ensures Counted(node, direction, ins, outs, props, i + 1)
    ensures node.selected == old(node.selected) && node.light == old(node.light)
  {
    ghost var before := node.ports;
    var id := CreatePortWithCaps(gv, nodeId, direction, Always, caps, node);
    LoopPortsStep(before, base, oldPorts, i, made, id, node.ports[id]);
    FacingIdsAdd(before, node.ports[id]);
    AllMadeAppend(made, node.ports[id], expected, capsList, direction);
    made' := made + [node.ports[id]];
  }

  /**
   * One `for` loop of `add_new_element`: an always-present port for each
   * pad, in order, each taking the next port id and the next count on its
   * side; `made` lists the new ports. The source unwraps each pad's caps.
   */
  method AddPortsForPads(gv: GraphView.GraphView, nodeId: nat, direction: PortDirection, pads: seq<PadInfo>, ghost node: Node,
                         ghost base: nat, ghost oldPorts: map<nat, Port>, ghost start: nat, ghost otherStart: nat)
    returns (ghost made: seq<Port>)
    requires nodeId in gv.nodes && node == gv.nodes[nodeId] && node.Valid()
    requires direction == Input || direction == Output
    requires base == gv.currentPortId && oldPorts == node.ports
    requires start == |FacingIds(node.ports, direction)| && otherStart == |FacingIds(node.ports, Opposite(direction))|
    requires forall i :: 0 <= i < |pads| ==> pads[i].caps.Some?
    requires forall k :: k in oldPorts ==> k <= base
    modifies gv`currentPortId, node
    ensures node.properties == old(node.properties)
    ensures node.selected == old(node.selected) && node.light == old(node.light)
    ensures Progress(gv, node, nodeId, direction, base, oldPorts, start, otherStart,
      PadPortNames(direction, start, |pads|), PadCaps(pads), |pads|, made)
    ensures direction == Input ==> node.numPortsIn == old(node.numPortsIn) + |pads| && node.numPortsOut == old(node.numPortsOut)
    ensures direction == Output ==> node.numPortsOut == old(node.numPortsOut) + |pads| && node.numPortsIn == old(node.numPortsIn)
  {
    ghost var ins, outs, props := node.numPortsIn, node.numPortsOut, node.properties;
    ghost var expected := PadPortNames(direction, start, |pads|);
    ghost var capsList := PadCaps(pads);
    ProgressStart(gv, node, nodeId, direction, base, oldPorts, start, otherStart, expected, capsList);
    made := [];
    var i := 0;
    while i < |pads|
      invariant 0 <= i <= |pads|
      invariant Progress(gv, node, nodeId, direction, base, oldPorts, start, otherStart, expected, capsList, i, made)
      invariant Counted(node, direction, ins, outs, props, i)
      invariant node.selected == old(node.selected) && node.light == old(node.light)
    {
      PadPortAt(direction, start, pads, i);
      made := AddPadPort(gv, nodeId, direction, pads[i].caps.value, node, base, oldPorts, start, otherStart, expected, capsList, i, made, ins, outs, props);
      i := i + 1;
    }
  }

  /**
   * The ports of a node made by `add_new_element`: the ids after `base`,
   * first one per input, listed in `inputs`, then one per output, listed in
   * `outputs`; each side carrying the expected names and properties.
   */
  ghost predicate ElementPorts(node: Node, base: nat, inputs: seq<Port>, outputs: seq<Port>,
                               inNames: seq<string>, inProps: seq<Properties>, outNames: seq<string>, outProps: seq<Properties>)
    reads node, inputs, outputs
  {
    |inputs| == |inNames| == |inProps| && |outputs| == |outNames| == |outProps|
    && (forall k :: k in node.ports <==> base < k <= base + |inputs| + |outputs|)
    && (forall j :: 0 <= j < |inputs| ==> node.ports[base + 1 + j] == inputs[j])
    && (forall j :: 0 <= j < |outputs| ==> node.ports[base + |inputs| + 1 + j] == outputs[j])
    && AllMade(inputs, inNames, inProps, Input)
    && AllMade(outputs, outNames, outProps, Output)
    && |FacingIds(node.ports, Input)| == |inputs| && |FacingIds(node.ports, Output)| == |outputs|
  }

  /** After the input loop on a node without ports: what the output loop starts from. */
  lemma InputsAdded(gv: GraphView.GraphView, node: Node, nodeId: nat, base: nat,
                    names: seq<string>, props: seq<Properties>, n: nat, inputs: seq<Port>)
    requires Progress(gv, node, nodeId, Input, base, map[], 0, 0, names, props, n, inputs) && n == |names|
    ensures nodeId in gv.nodes && gv.nodes[nodeId] == node && node.Valid()
    ensures gv.currentPortId == base + |names| && |inputs| == |names|
    ensures forall k :: k in node.ports <==> base < k <= base + |names|
    ensures forall j :: 0 <= j < |names| ==> node.ports[base + 1 + j] == inputs[j]
    ensures AllMade(inputs, names, props, Input)
  {
  }

  /** After the input loop on a node without ports: only inputs. */
  lemma InputsFacing(gv: GraphView.GraphView, node: Node, nodeId: nat, base: nat,
                     names: seq<string>, props: seq<Properties>, n: nat, inputs: seq<Port>)
    requires Progress(gv, node, nodeId, Input, base, map[], 0, 0, names, props, n, inputs) && n == |names|
    ensures |FacingIds(node.ports, Input)| == |names|
    ensures |FacingIds(node.ports, Output)| == 0
  {
    assert Opposite(Input) == Output;
  }

  /** Ids in a range end at its top. */
  lemma KeysBelow(ports: map<nat, Port>, base: nat, n: nat)
    requires forall k :: k in ports <==> base < k <= base + n
    ensures forall k :: k in ports ==> k <= base + n
  {
  }

  /** After the output loop: the node's ports are those `ElementPorts` describes. */
  lemma OutputsAdded(gv: GraphView.GraphView, node: Node, nodeId: nat, base: nat, inputs: seq<Port>, outputs: seq<Port>,
                     inNames: seq<string>, inProps: seq<Properties>, outNames: seq<string>, outProps: seq<Properties>,
                     midBase: nat, mid: map<nat, Port>, n: nat, m: nat)
    requires |inputs| == |inNames| == |inProps| && |outNames| == |outProps|
    requires midBase == base + |inputs| && n == |inputs| && m == |outNames|
    requires forall k :: k in mid <==> base < k <= base + |inputs|
    requires forall j :: 0 <= j < |inputs| ==> mid[base + 1 + j] == inputs[j]
    requires AllMade(inputs, inNames, inProps, Input)
    requires Progress(gv, node, nodeId, Output, midBase, mid, 0, n, outNames, outProps, m, outputs)
    ensures ElementPorts(node, base, inputs, outputs, inNames, inProps, outNames, outProps)
    ensures nodeId in gv.nodes && gv.nodes[nodeId] == node && node.Valid()
    ensures gv.currentPortId == base + |inputs| + |outputs|
  {
  }

  /**
   * The two loops of `add_new_element` on its new node, which has no ports
   * yet: first an input port for each sink pad, then an output port for
   * each source pad.
   */
  method AddElementPorts(gv: GraphView.GraphView, nodeId: nat, sinks: seq<PadInfo>, srcs: seq<PadInfo>, ghost node: Node)
    returns (ghost inputs: seq<Port>, ghost outputs: seq<Port>)
    requires nodeId in gv.nodes && node == gv.nodes[nodeId] && node.Valid() && node.ports == map[]
    requires forall i :: 0 <= i < |sinks| ==> sinks[i].caps.Some?
    requires forall i :: 0 <= i < |srcs| ==> srcs[i].caps.Some?
    modifies gv`currentPortId, node
    ensures gv.nodes == old(gv.nodes) && gv.links == old(gv.links) && gv.portSelected == old(gv.portSelected)
    ensures gv.id == old(gv.id) && gv.currentNodeId == old(gv.currentNodeId) && gv.currentLinkId == old(gv.currentLinkId)
    ensures node.Valid() && node.properties == old(node.properties)
    ensures node.selected == old(node.selected) && node.light == old(node.light)
    ensures gv.currentPortId == old(gv.currentPortId) + |sinks| + |srcs|
    ensures ElementPorts(node, old(gv.currentPortId), inputs, outputs,
      PadPortNames(Input, 0, |sinks|), PadCaps(sinks), PadPortNames(Output, 0, |srcs|), PadCaps(srcs))
    ensures node.numPortsIn == old(node.numPortsIn) + |sinks| && node.numPortsOut == old(node.numPortsOut) + |srcs|
  {
    ghost var base := gv.currentPortId;
    ghost var inNames, inProps := PadPortNames(Input, 0, |sinks|), PadCaps(sinks);
    ghost var outNames, outProps := PadPortNames(Output, 0, |srcs|), PadCaps(srcs);
    assert FacingIds(node.ports, Input) == {} && FacingIds(node.ports, Output) == {};
    inputs := AddPortsForPads(gv, nodeId, Input, sinks, node, base, map[], 0, 0);
    InputsAdded(gv, node, nodeId, base, inNames, inProps, |sinks|, inputs);
    InputsFacing(gv, node, nodeId, base, inNames, inProps, |sinks|, inputs);
    KeysBelow(node.ports, base, |sinks|);
    ghost var mid := node.ports;
    ghost var midBase := gv.currentPortId;
    assert Opposite(Output) == Input;
    outputs := AddPortsForPads(gv, nodeId, Output, srcs, node, midBase, mid, 0, |sinks|);
    OutputsAdded(gv, node, nodeId, base, inputs, outputs, inNames, inProps, outNames, outProps, midBase, mid, |sinks|, |srcs|);
  }

  /** Every always-present entry of a factory carries caps, which the source unwraps. */
  lemma PadsHaveCaps(templates: seq<PadTemplate>, elementName: string, dir: PadDirection)
    requires dir == Src || dir == PadDirection.Sink
    ensures forall i :: 0 <= i < |Entries(templates, elementName, false, dir)| ==> Entries(templates, elementName, false, dir)[i].caps.Some?
  {
    EntriesShape(templates, elementName, false, dir);
    var pads := Entries(templates, elementName, false, dir);
    assert forall i :: 0 <= i < |pads| ==> pads[i] in pads;
  }

  /** The first step of `add_new_element`: a new node without ports, added to the view. */
  method AddElementNode(gv: GraphView.GraphView, name: string, nodeType: NodeType) returns (node: Node)
    requires gv.Valid()
    modifies gv
    ensures gv.Valid() && fresh(node) && node.Valid()
    ensures node.id == old(gv.currentNodeId) + 1 && gv.currentNodeId == node.id
    ensures gv.nodes == old(gv.nodes)[node.id := node]
    ensures node.name == name && node.nodeType == nodeType && node.ports == map[] && node.properties == map[]
    ensures node.numPortsIn == 0 && node.numPortsOut == 0 && !node.selected && !node.light
    ensures gv.id == old(gv.id) && gv.links == old(gv.links) && gv.portSelected == old(gv.portSelected)
    ensures gv.currentPortId == old(gv.currentPortId) && gv.currentLinkId == old(gv.currentLinkId)
  {
    node := gv.CreateNode(name, nodeType);
    gv.AddNode(node);
  }

  /**
   * `add_new_element`: a new node named after the element, typed by its
   * pads (request and sometimes pads included), is added to the view; then
   * it gets an input port for each always-present sink pad and an output
   * port for each always-present source pad, in template order, with
   * consecutive new port ids. `inputs` and `outputs` list the new ports.
   */
  method AddNewElement(gv: GraphView.GraphView, templates: seq<PadTemplate>, elementName: string)
    returns (ghost inputs: seq<Port>, ghost outputs: seq<Port>)
    requires gv.Valid()
    modifies gv
    ensures gv.Valid()
    ensures gv.currentNodeId == old(gv.currentNodeId) + 1
    ensures gv.links == old(gv.links) && gv.id == old(gv.id) && gv.currentLinkId == old(gv.currentLinkId)
    ensures gv.portSelected == old(gv.portSelected)
    ensures gv.currentNodeId in gv.nodes && fresh(gv.nodes[gv.currentNodeId])
    ensures gv.nodes == old(gv.nodes)[gv.currentNodeId := gv.nodes[gv.currentNodeId]]
    ensures gv.nodes[gv.currentNodeId].name == elementName
    ensures gv.nodes[gv.currentNodeId].nodeType == GpsElement.CatalogType(templates, elementName)
    ensures gv.nodes[gv.currentNodeId].properties == map[]
    ensures !gv.nodes[gv.currentNodeId].selected && !gv.nodes[gv.currentNodeId].light
    ensures var sinks, srcs := Entries(templates, elementName, false, PadDirection.Sink), Entries(templates, elementName, false, Src);
      gv.currentPortId == old(gv.currentPortId) + |sinks| + |srcs|
      && ElementPorts(gv.nodes[gv.currentNodeId], old(gv.currentPortId), inputs, outputs,
        PadPortNames(Input, 0, |sinks|), PadCaps(sinks), PadPortNames(Output, 0, |srcs|), PadCaps(srcs))
      && gv.nodes[gv.currentNodeId].numPortsIn == |sinks| && gv.nodes[gv.currentNodeId].numPortsOut == |srcs|
  {
    var sinks, srcs := Pads(templates, elementName, false);
    PadsHaveCaps(templates, elementName, PadDirection.Sink);
    PadsHaveCaps(templates, elementName, Src);
    var catalog, catalogOut := Pads(templates, elementName, true);
    var node := AddElementNode(gv, elementName, GpsElement.ElementType(catalog, catalogOut));
    var nodeId := node.id;
    inputs, outputs := AddElementPorts(gv, nodeId, sinks, srcs, node);
    assert forall k :: k in gv.nodes && k != nodeId ==> gv.nodes[k] != node;
  }

  /** `update_element_properties`: the node's properties take the batch update; the source panics on an unknown node. */
  method UpdateElementProperties(gv: GraphView.GraphView, nodeId: nat, properties: Properties)
    requires nodeId in gv.nodes
    modifies gv.nodes[nodeId]
    ensures gv.nodes[nodeId].properties == Updated(old(gv.nodes[nodeId].properties), properties)
    ensures gv.nodes[nodeId].ports == old(gv.nodes[nodeId].ports)
    ensures gv.nodes[nodeId].selected == old(gv.nodes[nodeId].selected) && gv.nodes[nodeId].light == old(gv.nodes[nodeId].light)
    ensures gv.nodes[nodeId].numPortsIn == old(gv.nodes[nodeId].numPortsIn)
    ensures gv.nodes[nodeId].numPortsOut == old(gv.nodes[nodeId].numPortsOut)
  {
    var node := gv.nodes[nodeId];
    node.UpdateProperties(properties);
  }

  /** `update_pad_properties`: the port's properties take the batch update; an unknown node or port panics. */
  method UpdatePadProperties(gv: GraphView.GraphView, nodeId: nat, portId: nat, properties: Properties)
    requires nodeId in gv.nodes && portId in gv.nodes[nodeId].ports
    modifies gv.nodes[nodeId].ports[portId]
    ensures gv.nodes[nodeId].ports[portId].properties == Updated(old(gv.nodes[nodeId].ports[portId].properties), properties)
    ensures gv.nodes[nodeId].ports[portId].name == old(gv.nodes[nodeId].ports[portId].name)
    ensures gv.nodes[nodeId].ports[portId].selected == old(gv.nodes[nodeId].ports[portId].selected)
  {
    var port := gv.nodes[nodeId].ports[portId];
    port.UpdateProperties(properties);
  }

  /** `element_property`: the node's value for the name, if it has one. */
  method ElementProperty(gv: GraphView.GraphView, nodeId: nat, name: string) returns (r: Option<string>)
    requires nodeId in gv.nodes
    ensures r.Some? <==> name in gv.nodes[nodeId].properties
    ensures r.Some? ==> r.value == gv.nodes[nodeId].properties[name]
  {
    var node := gv.nodes[nodeId];
    r := node.GetProperty(name);
  }

  /**
   * `pad_properties`: the port's properties whose names are not hidden,
   * collected one entry at a time.
   */
  method PadProperties(gv: GraphView.GraphView, nodeId: nat, portId: nat) returns (props: Properties)
    requires nodeId in gv.nodes && portId in gv.nodes[nodeId].ports
    ensures props == Visible(gv.nodes[nodeId].ports[portId].properties)
    ensures forall k :: k in props ==> !IsHidden(k)
    ensures forall k :: k in gv.nodes[nodeId].ports[portId].properties && !IsHidden(k) ==>
      k in props && props[k] == gv.nodes[nodeId].ports[portId].properties[k]
  {
    var port := gv.nodes[nodeId].ports[portId];
    props := map[];
    var pending := port.properties.Keys;
    while pending != {}
      invariant pending <= port.properties.Keys
      invariant props == map k | k in port.properties && k !in pending && !IsHidden(k) :: port.properties[k]
      decreases pending
    {
      var name :| name in pending;
      if !IsHidden(name) {
        props := props[name := port.properties[name]];
      }
      pending := pending - {name};
    }
  }
}
