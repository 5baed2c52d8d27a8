/**
 * The older pipeline of `gps/pipeline.rs`: the same states as the player,
 * a pipeline that is moved to `Ready` as soon as it is built, only error
 * messages handled, and a simpler generator: property values are cut at
 * their first `:`, no port properties and no link names are written.
 *
 * The engine is an abstract handle recording the states asked of it; each
 * request may succeed or fail, chosen nondeterministically.
 */
module GpsPipeline {
  import opened Wrappers
  import opened Property
  import opened Port
  import opened Node
  import opened GraphData
  import opened GraphXml
  import opened Launch
  import opened Player

  /** The states the engine is asked for: `Ready` once built, then `Playing`, `Paused` or `Null`. */
  datatype EngineState = GstNull | GstReady | GstPaused | GstPlaying

  /** A built pipeline: its description and the states asked of it so far, in order. */
  datatype Engine = Engine(description: string, requested: seq<EngineState>)

  /** The engine state `set_state` asks for a pipeline state. */
  function EngineTarget(s: PipelineState): (e: EngineState)
    ensures e == GstNull <==> s == PipelineState.Stopped || s == PipelineState.Error
    ensures e != GstReady
  {
    match s
    case Playing => GstPlaying
    case Paused => GstPaused
    case Stopped => GstNull
    case Error => GstNull
  }

  class Pipeline {
    var pipeline: Option<Engine>
    var currentState: PipelineState
    /** The last state shown in the application's status bar. */
    var shown: Option<AppState>

    /** Only a built pipeline can have left `Stopped`, and a built one was first asked for `Ready`. */
    ghost predicate Valid()
      reads this
    {
      (currentState != PipelineState.Stopped ==> pipeline.Some?)
      && (pipeline.Some? ==> |pipeline.value.requested| > 0 && pipeline.value.requested[0] == GstReady)
    }

    /** `Pipeline::new`: stopped, without a pipeline. */
    constructor ()
      ensures Valid()
      ensures currentState == PipelineState.Stopped && pipeline.None? && shown.None?
    {
      pipeline := None;
      currentState := PipelineState.Stopped;
      shown := None;
    }

    /**
     * `set_state`: without a pipeline nothing happens and the requested
     * state is returned. With one, the engine is asked for the matching
     * state; a refusal is returned and changes nothing else, an acceptance
     * makes the state the requested one and shows it.
     */
    method SetState(newState: PipelineState) returns (r: Result<PipelineState>)
      requires Valid()
      modifies this
      ensures Valid()
      ensures r.Ok? ==> r.value == newState
      ensures old(pipeline).None? ==>
        r.Ok? && pipeline.None? && currentState == old(currentState) && shown == old(shown)
      ensures old(pipeline).Some? ==>
        pipeline == Some(old(pipeline).value.(requested := old(pipeline).value.requested + [EngineTarget(newState)]))
      ensures old(pipeline).Some? && r.Ok? ==> currentState == newState && shown == Some(StateToAppState(newState))
      ensures r.Err? ==> currentState == old(currentState) && shown == old(shown)
    {
      if pipeline.Some? {
        var p := pipeline.value;
        pipeline := Some(p.(requested := p.requested + [EngineTarget(newState)]));
        var engineOk: bool :| true;
        if !engineOk {
          return Err;
        }
        currentState := newState;
        shown := Some(StateToAppState(newState));
      }
      r := Ok(newState);
    }

    /**
     * `start_pipeline`: from `Stopped` or `Error` a new pipeline is built from
     * the graph's description and asked for `Ready`; a failure to build it,
     * to watch its bus or to make it ready is returned and keeps the old
     * pipeline. Then the requested state is set; a refusal is returned and
     * keeps the new pipeline. On any failure the state and the status bar
     * stay as they were.
     */
    method StartPipeline(g: GraphValue, newState: PipelineState) returns (r: Result<PipelineState>)
      requires Valid()
      modifies this
      ensures Valid()
      ensures r.Ok? ==> r.value == currentState && currentState == newState && pipeline.Some?
      ensures r.Ok? ==> shown == Some(StateToAppState(newState))
      ensures r.Err? ==> currentState == old(currentState) && shown == old(shown)
      ensures (old(currentState) == PipelineState.Stopped || old(currentState) == PipelineState.Error) && r.Err? ==>
        pipeline == old(pipeline)
        || (pipeline.Some? && pipeline.value.requested == [GstReady, EngineTarget(newState)]
            && exists o :: DocumentOrderFits(g, o) && pipeline.value.description == Render(Description(PipelineGenerator, g, o)))
      ensures old(currentState) != PipelineState.Stopped && old(currentState) != PipelineState.Error ==>
        pipeline == Some(old(pipeline).value.(requested := old(pipeline).value.requested + [EngineTarget(newState)]))
      ensures (old(currentState) == PipelineState.Stopped || old(currentState) == PipelineState.Error) && r.Ok? ==>
        pipeline.value.requested == [GstReady, EngineTarget(newState)]
        && exists o :: DocumentOrderFits(g, o) && pipeline.value.description == Render(Description(PipelineGenerator, g, o))
    {
      if currentState == PipelineState.Stopped || currentState == PipelineState.Error {
        var description, order := RenderGstLaunch(g);
        var parsed: bool :| true;
        if !parsed {
          return Err;
        }
        var watched: bool :| true;
        if !watched {
          return Err;
        }
        var ready: bool :| true;
        if !ready {
          return Err;
        }
        pipeline := Some(Engine(description, [GstReady]));
      }
      var outcome := SetState(newState);
      if outcome.Err? {
        return Err;
      }
      r := Ok(currentState);
    }

    /**
     * `on_pipeline_message`: an error message asks `set_state` for `Error`,
     * and a refusal of the engine panics. An application message named
     * `warning` logs its `text` field and panics without one. Every other
     * message, end of stream included, changes nothing.
     */
    method OnPipelineMessage(msg: Message) returns (r: Reaction)
      requires Valid()
      modifies this
      ensures Valid()
      ensures msg.ErrorMessage? ==> r == Handled || r == Aborted
      ensures msg.ErrorMessage? && old(pipeline).None? ==>
        r == Handled && pipeline.None? && currentState == old(currentState) && shown == old(shown)
      ensures msg.ErrorMessage? && old(pipeline).Some? ==>
        pipeline == Some(old(pipeline).value.(requested := old(pipeline).value.requested + [GstNull]))
      ensures msg.ErrorMessage? && old(pipeline).Some? && r == Handled ==>
        currentState == PipelineState.Error && shown == Some(AppState.Error)
      ensures r == Aborted ==> currentState == old(currentState) && shown == old(shown)
      ensures msg.Application? && msg.name == "warning" ==>
        (r == Aborted <==> msg.text.None?) && (msg.text.Some? ==> r == Warned(msg.text.value))
      ensures msg.Application? && msg.name != "warning" ==> r == Handled
      ensures msg.Eos? || msg.Other? ==> r == Handled
      ensures !msg.ErrorMessage? ==> currentState == old(currentState) && pipeline == old(pipeline) && shown == old(shown)
    {
      match msg
      case ErrorMessage =>
        var outcome := SetState(PipelineState.Error);
        r := if outcome.Ok? then Handled else Aborted;
      case Application(name, text) =>
        if name == "warning" {
          r := if text.Some? then Warned(text.value) else Aborted;
        } else {
          r := Handled;
        }
      case Eos =>
        r := Handled;
      case Other =>
        r := Handled;
    }
  }

  // The generator.

  /**
   * The property loop of `process_gst_node`: `name=value ` for each property
   * that is not hidden, in the map's order `keys`, the value cut after its
   * first `:` when it holds one.
   */
  method WriteNodeValues(props: Properties, keys: seq<string>) returns (text: string)
    requires forall k :: k in keys ==> k in props
    ensures text == Render(PropPieces(ShownProps(PipelineGenerator, props), keys))
  {
    ghost var shown := ShownProps(PipelineGenerator, props);
    text := "";
    for i := 0 to |keys|
      invariant text == Render(PropPieces(shown, keys[..i]))
    {
      var k := keys[i];
      var value := AfterColon(props[k]);
      PropPiecesNext(shown, keys, i);
      if !IsHidden(k) {
        text := text + (k + "=" + value + " ");
      }
    }
    assert keys[..|keys|] == keys;
  }

  /**
   * `process_gst_node`: the node's element with its name and its visible
   * properties, then each output port joined by a link, in the order `o`
   * of the graph's maps. It writes exactly the text of `Launch.Visit` for
   * the older generator.
   */
  method ProcessNode(g: GraphValue, o: DocumentOrder, nodeId: nat, elements: set<string>, description: string)
    returns (elementsOut: set<string>, descriptionOut: string)
    requires DocumentOrderFits(g, o) && nodeId in g.nodes
    decreases |UniqueNames(g) - (elements + {UniqueNameOf(g.nodes[nodeId])})|, 2, 0
    ensures descriptionOut == description + Render(Visit(PipelineGenerator, g, o, nodeId, elements).pieces)
    ensures elementsOut == Visit(PipelineGenerator, g, o, nodeId, elements).visited
  {
    var node, no := g.nodes[nodeId], o.nodeOrders[nodeId];
    var un := UniqueNameOf(node);
    descriptionOut := description + (node.name + " name=" + un + " ");
    elementsOut := elements + {un};
    var t1 := WriteNodeValues(node.properties, no.props);
    descriptionOut := descriptionOut + t1;
    assert descriptionOut + Render(PortPieces(PipelineGenerator, node, no)) == descriptionOut;
    var outputs := set p | p in node.ports && node.ports[p].direction == Output;
    var nPorts := |outputs|;
    VisitText(PipelineGenerator, g, o, nodeId, elements, description);
    elementsOut, descriptionOut := WriteOutputs(g, o, nodeId, nPorts, no.ports, elementsOut, descriptionOut);
  }

  /** The output loop of `process_gst_node`: each output port of the node, in the ports map's order `ports`. */
  method WriteOutputs(g: GraphValue, o: DocumentOrder, nodeId: nat, nPorts: nat, ports: seq<nat>, elements: set<string>,
                      description: string)
    returns (elementsOut: set<string>, descriptionOut: string)
    requires DocumentOrderFits(g, o) && nodeId in g.nodes
    requires forall p :: p in ports ==> p in g.nodes[nodeId].ports
    decreases |UniqueNames(g) - elements|, 1, |ports|
    ensures descriptionOut == description + Render(Outputs(PipelineGenerator, g, o, nodeId, nPorts, ports, elements).pieces)
    ensures elementsOut == Outputs(PipelineGenerator, g, o, nodeId, nPorts, ports, elements).visited
  {
    var node := g.nodes[nodeId];
    var un := UniqueNameOf(node);
    elementsOut, descriptionOut := elements, description;
    ghost var whole := Outputs(PipelineGenerator, g, o, nodeId, nPorts, ports, elements);
    assert ports[0..] == ports;
    assert description == description + Render([]);
    for i := 0 to |ports|
      invariant elements <= elementsOut
      invariant descriptionOut + Render(Outputs(PipelineGenerator, g, o, nodeId, nPorts, ports[i..], elementsOut).pieces)
        == description + Render(whole.pieces)
      invariant Outputs(PipelineGenerator, g, o, nodeId, nPorts, ports[i..], elementsOut).visited == whole.visited
    {
      var p := ports[i];
      assert ports[i..][0] == p && ports[i..][1..] == ports[i + 1..];
      if node.ports[p].direction == Output {
        SubsetCard(UniqueNames(g) - elementsOut, UniqueNames(g) - elements);
        var e, d := WriteOutput(g, o, un, nPorts, p, elementsOut, descriptionOut);
        RenderExtend(descriptionOut, FromPort(PipelineGenerator, g, o, un, nPorts, p, elementsOut).pieces,
          Outputs(PipelineGenerator, g, o, nodeId, nPorts, ports[i + 1..], e).pieces);
        elementsOut, descriptionOut := e, d;
      } else {
        assert [] + Outputs(PipelineGenerator, g, o, nodeId, nPorts, ports[i + 1..], elementsOut).pieces
          == Outputs(PipelineGenerator, g, o, nodeId, nPorts, ports[i + 1..], elementsOut).pieces;
      }
    }
  }

  /**
   * One output port of `process_gst_node`: nothing when no link leaves it
   * (`port_connected_to`); otherwise `unique. ! ` with several outputs, else
   * `! `, and the link's target: nothing when it is no node, `target. ` when
   * visited before, else its visit.
   */
  method WriteOutput(g: GraphValue, o: DocumentOrder, un: string, nPorts: nat, portId: nat, elements: set<string>,
                     description: string)
    returns (elementsOut: set<string>, descriptionOut: string)
    requires DocumentOrderFits(g, o)
    decreases |UniqueNames(g) - elements|, 0, 1
    ensures descriptionOut == description + Render(FromPort(PipelineGenerator, g, o, un, nPorts, portId, elements).pieces)
    ensures elementsOut == FromPort(PipelineGenerator, g, o, un, nPorts, portId, elements).visited
  {
    elementsOut, descriptionOut := elements, description;
    var linkId := FirstLinkFrom(g.links, o.links, portId);
    if linkId.None? {
      return;
    }
    var link := g.links[linkId.value];
    MarkerText(PipelineGenerator, un, nPorts, link.name);
    FromPortText(PipelineGenerator, g, o, un, nPorts, portId, elements, description);
    if nPorts > 1 {
      descriptionOut := descriptionOut + (un + ". ! ");
    } else {
      descriptionOut := descriptionOut + "! ";
    }
    if link.nodeTo in g.nodes {
      var tu := UniqueNameOf(g.nodes[link.nodeTo]);
      if tu in elements {
        ReferenceText(PipelineGenerator, g, o, link.nodeTo, elements, descriptionOut);
        descriptionOut := descriptionOut + (tu + ". ");
      } else {
        assert tu in UniqueNames(g);
        VisitShrinks(UniqueNames(g), elements, tu);
        elementsOut, descriptionOut := ProcessNode(g, o, link.nodeTo, elements, descriptionOut);
      }
    } else {
      assert descriptionOut + Render(Target(PipelineGenerator, g, o, link.nodeTo, elements).pieces) == descriptionOut;
    }
  }

  /**
   * `render_gst_launch`: one visit per `Source` node, in the nodes map's
   * order, sharing the visited names. The order of the graph's maps is that
   * of the run; the description is the text of `Launch.Description` for it.
   */
  method RenderGstLaunch(g: GraphValue) returns (description: string, order: DocumentOrder)
    ensures DocumentOrderFits(g, order)
    ensures description == Render(Description(PipelineGenerator, g, order))
  {
    var o := IterationOrder(g);
    order := o;
    var elements: set<string> := {};
    description := "";
    assert o.nodes[0..] == o.nodes;
    for i := 0 to |o.nodes|
      invariant description + Render(Sources(PipelineGenerator, g, o, o.nodes[i..], elements).pieces)
        == Render(Description(PipelineGenerator, g, o))
    {
      var k := o.nodes[i];
      SourcesText(PipelineGenerator, g, o, o.nodes, i, elements, description);
      if g.nodes[k].nodeType == Source {
        elements, description := ProcessNode(g, o, k, elements, description);
      } else {
        assert description + Render([]) == description;
      }
    }
  }
}
