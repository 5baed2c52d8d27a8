/**
 * The player of `gps/player.rs`: the state of the running pipeline, driven
 * by `start_pipeline`, `set_state` and bus messages, and the generator that
 * turns the graph into a pipeline description.
 *
 * The media engine is an abstract handle: each call on it may succeed or
 * fail, which the methods below choose nondeterministically. The generator
 * reads the graph through its value (`GraphView.Snapshot`).
 */
module Player {
  import opened Wrappers
  import opened Property
  import opened Port
  import opened Node
  import opened GraphData
  import opened GraphXml
  import opened Launch

  datatype PipelineState = Playing | Paused | Stopped | Error

  /** The application's status-bar state (`app.rs`). */
  datatype AppState = Ready | Playing | Paused | Stopped | Error

  /** A pipeline built by the engine from a description. */
  datatype EnginePipeline = EnginePipeline(description: string)

  /**
   * The bus messages the player reacts to; everything else is `Other`. An
   * application message carries the name of its structure and, when it has
   * one, its `text` field.
   */
  datatype Message = Eos | ErrorMessage | Application(name: string, text: Option<string>) | Other

  /** How handling a bus message ends: handled, a warning logged with its text, or a panic of an `expect`. */
  datatype Reaction = Handled | Warned(text: string) | Aborted

  /** `state_to_app_state`: each state shows as the application state of the same name. */
  function StateToAppState(s: PipelineState): (a: AppState)
    ensures a != AppState.Ready
  {
    match s
    case Playing => AppState.Playing
    case Paused => AppState.Paused
    case Stopped => AppState.Stopped
    case Error => AppState.Error
  }

  /** No two pipeline states show the same, and `Ready` is never shown. */
  lemma StateToAppStateInjective(s: PipelineState, t: PipelineState)
    ensures StateToAppState(s) == StateToAppState(t) <==> s == t
  {
  }

  class Player {
    var pipeline: Option<EnginePipeline>
    var currentState: PipelineState
    var nVideoSink: nat
    /** The last state shown in the application's status bar. */
    var shown: Option<AppState>

    /** Only a built pipeline can have left `Stopped`. */
    ghost predicate Valid()
      reads this
    {
      currentState != PipelineState.Stopped ==> pipeline.Some?
    }

    /** `Player::new`: stopped, no pipeline, no video sink. */
    constructor ()
      ensures Valid()
      ensures currentState == PipelineState.Stopped && pipeline.None? && nVideoSink == 0 && shown.None?
    {
      pipeline := None;
      currentState := PipelineState.Stopped;
      nVideoSink := 0;
      shown := None;
    }

    /** `playing`: the pipeline is playing or paused. */
    predicate IsPlaying()
      reads this
    {
      currentState == PipelineState.Playing || currentState == PipelineState.Paused
    }

    /**
     * `set_state`: without a pipeline nothing happens and the requested state
     * is returned. With one, the engine is asked; if it refuses, the error is
     * returned and nothing changes; if it accepts, the state becomes the
     * requested one and is shown, and stopping (or an error) forgets the
     * video sinks.
     */
    method SetState(newState: PipelineState) returns (r: Result<PipelineState>)
      requires Valid()
      modifies this
      ensures Valid()
      ensures pipeline == old(pipeline)
      ensures r.Ok? ==> r.value == newState
      ensures old(pipeline).None? ==>
        r.Ok? && currentState == old(currentState) && nVideoSink == old(nVideoSink) && shown == old(shown)
      ensures old(pipeline).Some? && r.Ok? ==>
        currentState == newState && shown == Some(StateToAppState(newState))
        && nVideoSink == (if newState == PipelineState.Stopped || newState == PipelineState.Error then 0 else old(nVideoSink))
      ensures r.Err? ==> currentState == old(currentState) && nVideoSink == old(nVideoSink) && shown == old(shown)
    {
      if pipeline.Some? {
        var engineOk: bool :| true;
        if !engineOk {
          return Err;
        }
        if newState == PipelineState.Stopped || newState == PipelineState.Error {
          nVideoSink := 0;
        }
        currentState := newState;
        shown := Some(StateToAppState(newState));
      }
      r := Ok(newState);
    }

    /**
     * `start_pipeline`: from `Stopped` or `Error` a new pipeline is built
     * from the graph's description (the video sinks are forgotten first);
     * then the requested state is set. A failure to build the pipeline or
     * to watch its bus is returned and keeps the old pipeline; a refusal of
     * the state change is returned and keeps the new one. Either way the
     * state and the status bar stay as they were.
     */
    method StartPipeline(g: GraphValue, newState: PipelineState) returns (r: Result<PipelineState>)
      requires Valid()
      modifies this
      ensures Valid()
      ensures r.Ok? ==> r.value == currentState && currentState == newState && pipeline.Some?
      ensures r.Ok? ==> shown == Some(StateToAppState(newState))
      ensures r.Err? ==> currentState == old(currentState) && shown == old(shown)
      ensures old(currentState) != PipelineState.Stopped && old(currentState) != PipelineState.Error ==>
        pipeline == old(pipeline)
        && nVideoSink == (if r.Ok? && (newState == PipelineState.Stopped || newState == PipelineState.Error) then 0 else old(nVideoSink))
      ensures old(currentState) == PipelineState.Stopped || old(currentState) == PipelineState.Error ==>
        nVideoSink == 0
        && (pipeline == old(pipeline)
            || exists o :: DocumentOrderFits(g, o) && pipeline == Some(EnginePipeline(Render(Description(PlayerGenerator, g, o)))))
      ensures (old(currentState) == PipelineState.Stopped || old(currentState) == PipelineState.Error) && r.Ok? ==>
        exists o :: DocumentOrderFits(g, o) && pipeline.value.description == Render(Description(PlayerGenerator, g, o))
    {
      if currentState == PipelineState.Stopped || currentState == PipelineState.Error {
        var description, order := PipelineDescription(g);
        nVideoSink := 0;
        var parsed: bool :| true;
        if !parsed {
          return Err;
        }
        var watched: bool :| true;
        if !watched {
          return Err;
        }
        pipeline := Some(EnginePipeline(description));
      }
      var outcome := SetState(newState);
      if outcome.Err? {
        return Err;
      }
      r := Ok(currentState);
    }

    /**
     * `on_pipeline_message`: end of stream asks `set_state` for `Stopped`, an
     * error message for `Error`, and a refusal of the engine panics. An
     * application message named `warning` logs its `text` field and panics
     * without one. Anything else changes nothing.
     */
    method OnPipelineMessage(msg: Message) returns (r: Reaction)
      requires Valid()
      modifies this
      ensures Valid()
      ensures pipeline == old(pipeline)
      ensures (msg.Eos? || msg.ErrorMessage?) ==> r == Handled || r == Aborted
      ensures (msg.Eos? || msg.ErrorMessage?) && old(pipeline).None? ==>
        r == Handled && currentState == old(currentState) && nVideoSink == old(nVideoSink) && shown == old(shown)
      ensures (msg.Eos? || msg.ErrorMessage?) && old(pipeline).Some? && r == Handled ==>
        var target := if msg.Eos? then PipelineState.Stopped else PipelineState.Error;
        currentState == target && shown == Some(StateToAppState(target)) && nVideoSink == 0 && !IsPlaying()
      ensures r == Aborted ==> currentState == old(currentState) && nVideoSink == old(nVideoSink) && shown == old(shown)
      ensures msg.Application? && msg.name == "warning" ==>
        (r == Aborted <==> msg.text.None?) && (msg.text.Some? ==> r == Warned(msg.text.value))
      ensures msg.Application? && msg.name != "warning" ==> r == Handled
      ensures msg.Other? ==> r == Handled
      ensures !msg.Eos? && !msg.ErrorMessage? ==>
        currentState == old(currentState) && nVideoSink == old(nVideoSink) && shown == old(shown)
    {
      match msg
      case Eos =>
        var outcome := SetState(PipelineState.Stopped);
        r := if outcome.Ok? then Handled else Aborted;
      case ErrorMessage =>
        var outcome := SetState(PipelineState.Error);
        r := if outcome.Ok? then Handled else Aborted;
      case Application(name, text) =>
        if name == "warning" {
          r := if text.Some? then Warned(text.value) else Aborted;
        } else {
          r := Handled;
        }
      case Other =>
        r := Handled;
    }

    /** A `gtk4paintablesink` of the running pipeline reported its picture: one more video sink. */
    method OnVideoSinkReady()
      modifies this
      ensures nVideoSink == old(nVideoSink) + 1
      ensures currentState == old(currentState) && pipeline == old(pipeline) && shown == old(shown)
    {
      nVideoSink := nVideoSink + 1;
    }

    /**
     * `pipeline_elements`: the factory names of the running pipeline's
     * elements, which only the engine knows; nothing unless playing.
     */
    method PipelineElements() returns (r: Option<seq<string>>)
      requires Valid()
      ensures r.Some? <==> IsPlaying()
    {
      if IsPlaying() {
        assert pipeline.Some?;
        var names: seq<string> :| true;
        r := Some(names);
      } else {
        r := None;
      }
    }
  }

  // The generator.

  /**
   * The node-property loop of `process_gst_node`: `name=value ` for each
   * property that is not hidden, in the map's order `keys`.
   */
  method WriteNodeProperties(props: Properties, keys: seq<string>) returns (text: string)
    requires forall k :: k in keys ==> k in props
    ensures text == Render(PropPieces(ShownProps(PlayerGenerator, props), keys))
  {
    ghost var shown := ShownProps(PlayerGenerator, props);
    text := "";
    for i := 0 to |keys|
      invariant text == Render(PropPieces(shown, keys[..i]))
    {
      var k := keys[i];
      PropPiecesNext(shown, keys, i);
      if !IsHidden(k) {
        text := text + (k + "=" + props[k] + " ");
      }
    }
    assert keys[..|keys|] == keys;
  }

  /** `port::name=value ` for each property of one port that is not hidden, in the map's order `keys`. */
  method WritePortProperties(p: PortValue, keys: seq<string>) returns (text: string)
    requires forall k :: k in keys ==> k in p.properties
    ensures text == Render(PortPropPieces(p, keys))
  {
    text := "";
    for i := 0 to |keys|
      invariant text == Render(PortPropPieces(p, keys[..i]))
    {
      var k := keys[i];
      PortPropPiecesNext(p, keys, i);
      if !IsHidden(k) {
        text := text + (p.name + "::" + k + "=" + p.properties[k] + " ");
      }
    }
    assert keys[..|keys|] == keys;
  }

  /** The port-property loop of `process_gst_node`, over the node's ports in the map's order `ports`. */
  method WriteAllPortProperties(n: NodeValue, ports: seq<nat>, portProps: map<nat, seq<string>>) returns (text: string)
    requires forall p :: p in ports ==> p in n.ports && p in portProps
    requires forall p :: p in ports ==> forall k :: k in portProps[p] ==> k in n.ports[p].properties
    ensures text == Render(AllPortPropPieces(n, ports, portProps))
  {
    text := "";
    for i := 0 to |ports|
      invariant text == Render(AllPortPropPieces(n, ports[..i], portProps))
    {
      var p := ports[i];
      assert ports[..i + 1][..i] == ports[..i];
      var t := WritePortProperties(n.ports[p], portProps[p]);
      RenderAppend(AllPortPropPieces(n, ports[..i], portProps), PortPropPieces(n.ports[p], portProps[p]));
      text := text + t;
    }
    assert ports[..|ports|] == ports;
  }

  /**
   * `process_gst_node`: the node's element with its name, its visible
   * properties and its ports' visible properties, then each output port
   * joined by a link, in the order `o` of the graph's maps. It writes
   * exactly the text of `Launch.Visit`.
   */
  method ProcessNode(g: GraphValue, o: DocumentOrder, nodeId: nat, elements: set<string>, description: string)
    returns (elementsOut: set<string>, descriptionOut: string)
    requires DocumentOrderFits(g, o) && nodeId in g.nodes
    decreases |UniqueNames(g) - (elements + {UniqueNameOf(g.nodes[nodeId])})|, 2, 0
    ensures descriptionOut == description + Render(Visit(PlayerGenerator, g, o, nodeId, elements).pieces)
    ensures elementsOut == Visit(PlayerGenerator, g, o, nodeId, elements).visited
  {
    var node, no := g.nodes[nodeId], o.nodeOrders[nodeId];
    var un := UniqueNameOf(node);
    descriptionOut := description + (node.name + " name=" + un + " ");
    elementsOut := elements + {un};
    var t1 := WriteNodeProperties(node.properties, no.props);
    descriptionOut := descriptionOut + t1;
    var t2 := WriteAllPortProperties(node, no.ports, no.portProps);
    descriptionOut := descriptionOut + t2;
    var outputs := set p | p in node.ports && node.ports[p].direction == Output;
    var nPorts := |outputs|;
    VisitText(PlayerGenerator, g, o, nodeId, elements, description);
    elementsOut, descriptionOut := WriteOutputs(g, o, nodeId, nPorts, no.ports, elementsOut, descriptionOut);
  }

  /** The output loop of `process_gst_node`: each output port of the node, in the ports map's order `ports`. */
  method WriteOutputs(g: GraphValue, o: DocumentOrder, nodeId: nat, nPorts: nat, ports: seq<nat>, elements: set<string>,
                      description: string)
    returns (elementsOut: set<string>, descriptionOut: string)
    requires DocumentOrderFits(g, o) && nodeId in g.nodes
    requires forall p :: p in ports ==> p in g.nodes[nodeId].ports
    decreases |UniqueNames(g) - elements|, 1, |ports|
    ensures descriptionOut == description + Render(Outputs(PlayerGenerator, g, o, nodeId, nPorts, ports, elements).pieces)
    ensures elementsOut == Outputs(PlayerGenerator, g, o, nodeId, nPorts, ports, elements).visited
  {
    var node := g.nodes[nodeId];
    var un := UniqueNameOf(node);
    elementsOut, descriptionOut := elements, description;
    ghost var whole := Outputs(PlayerGenerator, g, o, nodeId, nPorts, ports, elements);
    assert ports[0..] == ports;
    assert description == description + Render([]);
    for i := 0 to |ports|
      invariant elements <= elementsOut
      invariant descriptionOut + Render(Outputs(PlayerGenerator, g, o, nodeId, nPorts, ports[i..], elementsOut).pieces)
        == description + Render(whole.pieces)
      invariant Outputs(PlayerGenerator, g, o, nodeId, nPorts, ports[i..], elementsOut).visited == whole.visited
    {
      var p := ports[i];
      assert ports[i..][0] == p && ports[i..][1..] == ports[i + 1..];
      if node.ports[p].direction == Output {
        SubsetCard(UniqueNames(g) - elementsOut, UniqueNames(g) - elements);
        var e, d := WriteOutput(g, o, un, nPorts, p, elementsOut, descriptionOut);
        RenderExtend(descriptionOut, FromPort(PlayerGenerator, g, o, un, nPorts, p, elementsOut).pieces,
          Outputs(PlayerGenerator, g, o, nodeId, nPorts, ports[i + 1..], e).pieces);
        elementsOut, descriptionOut := e, d;
      } else {
        assert [] + Outputs(PlayerGenerator, g, o, nodeId, nPorts, ports[i + 1..], elementsOut).pieces
          == Outputs(PlayerGenerator, g, o, nodeId, nPorts, ports[i + 1..], elementsOut).pieces;
      }
    }
  }

  /**
   * One output port of `process_gst_node`: nothing when no link leaves it;
   * otherwise the branch marker (`unique. ! ` with several outputs, else
   * `! `, after `! linkname ` for a named link) and the link's target.
   */
  method WriteOutput(g: GraphValue, o: DocumentOrder, un: string, nPorts: nat, portId: nat, elements: set<string>,
                     description: string)
    returns (elementsOut: set<string>, descriptionOut: string)
    requires DocumentOrderFits(g, o)
    decreases |UniqueNames(g) - elements|, 0, 1
    ensures descriptionOut == description + Render(FromPort(PlayerGenerator, g, o, un, nPorts, portId, elements).pieces)
    ensures elementsOut == FromPort(PlayerGenerator, g, o, un, nPorts, portId, elements).visited
  {
    elementsOut, descriptionOut := elements, description;
    var linkId := FirstLinkFrom(g.links, o.links, portId);
    if linkId.None? {
      return;
    }
    var link := g.links[linkId.value];
    MarkerText(PlayerGenerator, un, nPorts, link.name);
    FromPortText(PlayerGenerator, g, o, un, nPorts, portId, elements, description);
    if nPorts > 1 {
      descriptionOut := descriptionOut + (un + ". ! ");
    } else {
      if link.name != "" {
        descriptionOut := descriptionOut + ("! " + link.name + " ");
        Associative(description, "! " + link.name + " ", "! ");
      }
      descriptionOut := descriptionOut + "! ";
    }
    elementsOut, descriptionOut := WriteTarget(g, o, link.nodeTo, elements, descriptionOut);
  }

  /**
   * The target of a link in `process_gst_node`: nothing when the link leads
   * to no node, `target. ` when it was visited before, else its visit.
   */
  method WriteTarget(g: GraphValue, o: DocumentOrder, nodeTo: nat, elements: set<string>, description: string)
    returns (elementsOut: set<string>, descriptionOut: string)
    requires DocumentOrderFits(g, o)
    decreases |UniqueNames(g) - elements|, 0, 0
    ensures descriptionOut == description + Render(Target(PlayerGenerator, g, o, nodeTo, elements).pieces)
    ensures elementsOut == Target(PlayerGenerator, g, o, nodeTo, elements).visited
  {
    elementsOut, descriptionOut := elements, description;
    if nodeTo !in g.nodes {
      return;
    }
    var tu := UniqueNameOf(g.nodes[nodeTo]);
    if tu in elements {
      ReferenceText(PlayerGenerator, g, o, nodeTo, elements, description);
      descriptionOut := description + (tu + ". ");
    } else {
      assert tu in UniqueNames(g);
      VisitShrinks(UniqueNames(g), elements, tu);
      elementsOut, descriptionOut := ProcessNode(g, o, nodeTo, elements, description);
    }
  }

  /**
   * `pipeline_description_from_graphview`: one visit per `Source` node, in
   * the nodes map's order, sharing the visited names. The order of the
   * graph's maps is that of the run; the description is the text of
   * `Launch.Description` for it.
   */
  method PipelineDescription(g: GraphValue) returns (description: string, order: DocumentOrder)
    ensures DocumentOrderFits(g, order)
    ensures description == Render(Description(PlayerGenerator, g, order))
  {
    var o := IterationOrder(g);
    order := o;
    var elements: set<string> := {};
    description := "";
    assert o.nodes[0..] == o.nodes;
    for i := 0 to |o.nodes|
      invariant description + Render(Sources(PlayerGenerator, g, o, o.nodes[i..], elements).pieces)
        == Render(Description(PlayerGenerator, g, o))
    {
      var k := o.nodes[i];
      SourcesText(PlayerGenerator, g, o, o.nodes, i, elements, description);
      if g.nodes[k].nodeType == Source {
        elements, description := ProcessNode(g, o, k, elements, description);
      } else {
        assert description + Render([]) == description;
      }
    }
  }
}
