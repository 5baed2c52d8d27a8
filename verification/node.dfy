/**
 * Nodes of the graph (`node.rs`): the node type and its textual form, the
 * unique name used in pipeline descriptions, and the node object with its
 * port map, per-direction port counters, properties, selection and light.
 */
module Node {
  import opened Wrappers
  import opened Text
  import opened Property
  import opened Port

  datatype NodeType = Source | Transform | Sink | All | Unknown

  /** `Display` of a node type: the variant's name. */
  function TypeName(t: NodeType): string
  {
    match t
    case Source => "Source"
    case Transform => "Transform"
    case Sink => "Sink"
    case All => "All"
    case Unknown => "Unknown"
  }

  /** `NodeType::from_str`: never fails; text that names no type is `Unknown`. */
  function TypeFromStr(s: string): NodeType
  {
    if s == "Source" then Source
    else if s == "Transform" then Transform
    else if s == "Sink" then Sink
    else if s == "All" then NodeType.All
    else NodeType.Unknown
  }

  /** Every node type reads back from its own name. */
  lemma TypeRoundTrip(t: NodeType)
    ensures TypeFromStr(TypeName(t)) == t
  {
  }

  /** Parsing only recognises the names it writes; anything else is `Unknown`. */
  lemma TypeFromStrNames(s: string)
    ensures TypeFromStr(s) == NodeType.Unknown || TypeName(TypeFromStr(s)) == s
  {
  }

  /** `unique_name`: the node's name immediately followed by its decimal id. */
  function UniqueName(name: string, id: nat): string
  {
    name + NatToString(id)
  }

  /** Two nodes with the same name get different unique names exactly when their ids differ. */
  lemma {:induction false} UniqueNameSeparatesIds(name: string, id1: nat, id2: nat)
    ensures UniqueName(name, id1) == UniqueName(name, id2) <==> id1 == id2
  {
    if UniqueName(name, id1) == UniqueName(name, id2) {
      var u := UniqueName(name, id1);
      assert NatToString(id1) == u[|name|..] == NatToString(id2);
    }
  }

  /**
   * Across different names the unique name is ambiguous: no separator stands
   * between name and id, so "a1" with id 1 and "a" with id 11 collide.
   */
  lemma UniqueNameCollision()
    ensures UniqueName("a1", 1) == UniqueName("a", 11)
  {
    assert NatToString(11) == NatToString(1) + NatToString(1);
  }

  class Node {
    const id: nat
    const name: string
    const nodeType: NodeType
    var ports: map<nat, Port>
    var numPortsIn: int
    var numPortsOut: int
    var properties: Properties
    var selected: bool
    var light: bool

    /** Every port is stored under its own id and is an input or an output. */
    ghost predicate Valid()
      reads this
    {
      forall k :: k in ports ==>
        ports[k].id == k && (ports[k].direction == Input || ports[k].direction == Output)
    }

    /** `all_ports`: the ports facing `direction`, or every port for `All`. */
    function AllPorts(direction: PortDirection): map<nat, Port>
      reads this
    {
      Facing(ports, direction)
    }

    /** The per-direction counters agree with the ports actually held. */
    ghost predicate CountersMatch()
      reads this
    {
      numPortsIn == |AllPorts(Input)| && numPortsOut == |AllPorts(Output)|
    }

    /** `Node::new`: no ports, no properties, unselected and unlit. */
    constructor (id: nat, name: string, nodeType: NodeType)
      ensures this.id == id && this.name == name && this.nodeType == nodeType
      ensures ports == map[] && properties == map[]
      ensures numPortsIn == 0 && numPortsOut == 0
      ensures !selected && !light
      ensures Valid() && CountersMatch()
    {
      this.id := id;
      this.name := name;
      this.nodeType := nodeType;
      ports := map[];
      properties := map[];
      numPortsIn := 0;
      numPortsOut := 0;
      selected := false;
      light := false;
      new;
      assert AllPorts(Input) == map[];
      assert AllPorts(Output) == map[];
    }

    /**
     * `add_port`: stores the port under its id and counts it on its side; a
     * port facing neither way makes the source panic.
     */
    method AddPort(port: Port)
      requires Valid()
      requires port.direction == Input || port.direction == Output
      modifies this
      ensures Valid()
      ensures ports == old(ports)[port.id := port]
      ensures port.direction == Input ==> numPortsIn == old(numPortsIn) + 1 && numPortsOut == old(numPortsOut)
      ensures port.direction == Output ==> numPortsOut == old(numPortsOut) + 1 && numPortsIn == old(numPortsIn)
      ensures properties == old(properties) && selected == old(selected) && light == old(light)
      ensures old(CountersMatch()) && port.id !in old(ports) ==> CountersMatch()
    {
      if port.direction == Input {
        numPortsIn := numPortsIn + 1;
      } else {
        numPortsOut := numPortsOut + 1;
      }
      FacingAdd(ports, port);
      ports := ports[port.id := port];
    }

    /** `port`: the port with that id, if any. */
    function GetPort(id: nat): (r: Option<Port>)
      reads this
      ensures r.Some? <==> id in ports
      ensures r.Some? ==> r.value == ports[id]
      ensures Valid() && r.Some? ==> r.value.id == id
    {
      if id in ports then Some(ports[id]) else None
    }

    /** `can_remove_port`: only an existing port whose presence is not `Always` may go. */
    predicate CanRemovePort(id: nat)
      reads this
    {
      id in ports && ports[id].presence != Always
    }

    /**
     * `remove_port` with the output counter decremented on an output port.
     * This is the evident intent; the source writes the input counter (see
     * `RemovePortAsWritten`).
     */
    method RemovePort(id: nat)
      requires Valid()
      modifies this
      ensures Valid()
      ensures ports == old(ports) - {id}
      ensures id in old(ports) && old(ports[id]).direction == Input ==>
        numPortsIn == old(numPortsIn) - 1 && numPortsOut == old(numPortsOut)
      ensures id in old(ports) && old(ports[id]).direction == Output ==>
        numPortsOut == old(numPortsOut) - 1 && numPortsIn == old(numPortsIn)
      ensures id !in old(ports) ==> numPortsIn == old(numPortsIn) && numPortsOut == old(numPortsOut)
      ensures properties == old(properties) && selected == old(selected) && light == old(light)
      ensures old(CountersMatch()) ==> CountersMatch()
    {
      if id in ports {
        var port := ports[id];
        FacingRemove(ports, id);
        ports := ports - {id};
        if port.direction == Input {
          numPortsIn := numPortsIn - 1;
        } else {
          numPortsOut := numPortsOut - 1;
        }
      }
    }

    /**
     * `remove_port` exactly as written: removing an output port stores
     * `num_ports_out - 1` into the input counter and leaves the output counter.
     */
    method RemovePortAsWritten(id: nat)
      requires Valid()
      modifies this
      ensures Valid()
      ensures ports == old(ports) - {id}
      ensures id in old(ports) && old(ports[id]).direction == Input ==>
        numPortsIn == old(numPortsIn) - 1 && numPortsOut == old(numPortsOut)
      ensures id in old(ports) && old(ports[id]).direction == Output ==>
        numPortsIn == old(numPortsOut) - 1 && numPortsOut == old(numPortsOut)
      ensures id !in old(ports) ==> numPortsIn == old(numPortsIn) && numPortsOut == old(numPortsOut)
      ensures properties == old(properties) && selected == old(selected) && light == old(light)
    {
      if id in ports {
        var port := ports[id];
        ports := ports - {id};
        if port.direction == Input {
          numPortsIn := numPortsIn - 1;
        } else {
          numPortsIn := numPortsOut - 1;
        }
      }
    }

    /** `unselect_all_ports`: every port of the node ends up unselected. */
    method UnselectAllPorts()
      modifies set k | k in ports :: ports[k]
      ensures forall k :: k in ports ==> !ports[k].selected
      ensures forall k :: k in ports ==>
        ports[k].name == old(ports[k].name) && ports[k].properties == old(ports[k].properties)
    {
      var pending := ports.Keys;
      while pending != {}
        invariant pending <= ports.Keys
        invariant forall k :: k in ports && k !in pending ==> !ports[k].selected
        invariant forall k :: k in ports ==>
          ports[k].name == old(ports[k].name) && ports[k].properties == old(ports[k].properties)
        decreases pending
      {
        var k :| k in pending;
        ports[k].SetSelected(false);
        pending := pending - {k};
      }
    }

    method SetLight(light: bool)
      modifies this
      ensures this.light == light
      ensures ports == old(ports) && properties == old(properties) && selected == old(selected)
      ensures numPortsIn == old(numPortsIn) && numPortsOut == old(numPortsOut)
    {
      this.light := light;
    }

    /** `toggle_selected`: flips the flag; two toggles restore it. */
    method ToggleSelected()
      modifies this
      ensures selected == !old(selected)
      ensures ports == old(ports) && properties == old(properties) && light == old(light)
      ensures numPortsIn == old(numPortsIn) && numPortsOut == old(numPortsOut)
    {
      SetSelected(!selected);
    }

    method SetSelected(selected: bool)
      modifies this
      ensures this.selected == selected
      ensures ports == old(ports) && properties == old(properties) && light == old(light)
      ensures numPortsIn == old(numPortsIn) && numPortsOut == old(numPortsOut)
    {
      this.selected := selected;
    }

    /** `add_property`: inserts or overwrites one key, others are unchanged. */
    method AddProperty(name: string, value: string)
      modifies this
      ensures properties == old(properties)[name := value]
      ensures ports == old(ports) && selected == old(selected) && light == old(light)
      ensures numPortsIn == old(numPortsIn) && numPortsOut == old(numPortsOut)
    {
      properties := properties[name := value];
    }

    /** `remove_property`: deletes only that key. */
    method RemoveProperty(name: string)
      modifies this
      ensures properties == old(properties) - {name}
      ensures ports == old(ports) && selected == old(selected) && light == old(light)
      ensures numPortsIn == old(numPortsIn) && numPortsOut == old(numPortsOut)
    {
      properties := properties - {name};
    }

    /** `update_properties`, inherited from the property trait. */
    method UpdateProperties(updates: Properties)
      modifies this
      ensures properties == Updated(old(properties), updates)
      ensures ports == old(ports) && selected == old(selected) && light == old(light)
      ensures numPortsIn == old(numPortsIn) && numPortsOut == old(numPortsOut)
    {
      properties := Property.UpdateProperties(properties, updates);
    }

    /** `property`: the value of one property, if set. */
    function GetProperty(name: string): (r: Option<string>)
      reads this
      ensures r.Some? <==> name in properties
      ensures r.Some? ==> r.value == properties[name]
    {
      Lookup(properties, name)
    }
  }

  /** The ports of a map facing `direction`, or all of them for `All`. */
  function Facing(ports: map<nat, Port>, direction: PortDirection): map<nat, Port>
  {
    map k | k in ports && (ports[k].direction == direction || direction == PortDirection.All) :: ports[k]
  }

  /** A new port grows the count on its own side by one and leaves the other side. */
  lemma FacingAdd(ports: map<nat, Port>, port: Port)
    requires port.direction == Input || port.direction == Output
    ensures port.id !in ports ==>
      |Facing(ports[port.id := port], Input)| == |Facing(ports, Input)| + (if port.direction == Input then 1 else 0)
      && |Facing(ports[port.id := port], Output)| == |Facing(ports, Output)| + (if port.direction == Output then 1 else 0)
  {
    if port.id !in ports {
      var other := if port.direction == Input then Output else Input;
      assert Facing(ports[port.id := port], port.direction) == Facing(ports, port.direction)[port.id := port];
      assert Facing(ports[port.id := port], other) == Facing(ports, other);
    }
  }

  /** Removing a port shrinks the count on its own side by one and leaves the other side. */
  lemma FacingRemove(ports: map<nat, Port>, id: nat)
    requires id in ports && (ports[id].direction == Input || ports[id].direction == Output)
    ensures |Facing(ports - {id}, Input)| == |Facing(ports, Input)| - (if ports[id].direction == Input then 1 else 0)
    ensures |Facing(ports - {id}, Output)| == |Facing(ports, Output)| - (if ports[id].direction == Output then 1 else 0)
  {
    var d := ports[id].direction;
    var other := if d == Input then Output else Input;
    assert Facing(ports, d) == Facing(ports - {id}, d)[id := ports[id]];
    assert id !in Facing(ports - {id}, d);
    assert Facing(ports - {id}, other) == Facing(ports, other);
  }

  /** A single port faces its own way only. */
  lemma FacingSingle(k: nat, p: Port)
    requires p.direction == Input
    ensures |Facing(map[k := p], Input)| == 1 && |Facing(map[k := p], Output)| == 0
  {
    assert Facing(map[k := p], Input) == map[k := p];
    assert Facing(map[k := p], Output) == map[];
  }

  /**
   * Under `Valid`, the input and output ports split the node's ports: every
   * port is in exactly one of them, `All` returns every port, and the two
   * counts add up to the number of ports.
   */
  lemma PortsPartition(n: Node)
    requires n.Valid()
    ensures n.AllPorts(PortDirection.All) == n.ports
    ensures n.AllPorts(Input).Keys !! n.AllPorts(Output).Keys
    ensures n.AllPorts(Input).Keys + n.AllPorts(Output).Keys == n.ports.Keys
    ensures |n.AllPorts(Input)| + |n.AllPorts(Output)| == |n.ports|
  {
    var ins, outs := n.AllPorts(Input).Keys, n.AllPorts(Output).Keys;
    assert ins + outs == n.ports.Keys;
    assert |ins + outs| == |ins| + |outs|;
  }

  /**
   * Removing an output port with the code as written leaves the counters out
   * of step with the ports: a node with one input and one output reports no
   * input and one output afterwards.
   */
  method RemovePortCounterDrift() returns (numPortsIn: int, numPortsOut: int, inputs: nat, outputs: nat)
    ensures numPortsIn == 0 && numPortsOut == 1
    ensures inputs == 1 && outputs == 0
  {
    var node := new Node(1, "tee", Transform);
    var sink := new Port(2, "sink_0", Input, Always);
    var src := new Port(3, "src_0", Output, Always);
    node.AddPort(sink);
    node.AddPort(src);
    node.RemovePortAsWritten(3);
    assert node.ports == map[2 := sink];
    FacingSingle(2, sink);
    numPortsIn, numPortsOut := node.numPortsIn, node.numPortsOut;
    inputs, outputs := |node.AllPorts(Input)|, |node.AllPorts(Output)|;
  }

  /**
   * The ports of a node after a run of `i` additions: those from before
   * the run, all with ids up to `base` and unchanged, and the `i` ports
   * made since, under the next ids in order.
   */
  ghost predicate LoopPorts(ports: map<nat, Port>, base: nat, oldPorts: map<nat, Port>, i: nat, made: seq<Port>)
  {
    (forall k :: k in oldPorts ==> k <= base)
    && (forall k :: k in ports <==> k in oldPorts || base < k <= base + i)
    && (forall k :: k in oldPorts ==> ports[k] == oldPorts[k])
    && |made| == i && (forall j :: 0 <= j < i ==> ports[base + 1 + j] == made[j])
  }

  /** Storing the next port under the next id extends the run by one. */
  lemma LoopPortsStep(ports: map<nat, Port>, base: nat, oldPorts: map<nat, Port>, i: nat, made: seq<Port>, id: nat, port: Port)
    requires LoopPorts(ports, base, oldPorts, i, made) && id == base + i + 1
    ensures id !in ports
    ensures LoopPorts(ports[id := port], base, oldPorts, i + 1, made + [port])
  {
  }

  /** A node's counters after `i` ports added facing `direction`, from `ins` inputs and `outs` outputs. */
  ghost predicate CountersAdvanced(node: Node, direction: PortDirection, ins: int, outs: int, i: nat)
    reads node
  {
    node.numPortsIn == ins + (if direction == Input then i else 0)
    && node.numPortsOut == outs + (if direction == Output then i else 0)
  }
}
