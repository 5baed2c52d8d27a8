/**
 * The older pipeline wrapper of `pipeline.rs`: a three-state player that
 * only tracks its state once an engine pipeline exists, the element list
 * with optional names sorted by their derived order, and the pad counting
 * that decides an element's node type. The registry is a parameter; the
 * engine answers every call with success or failure at will.
 */
module StudioPipeline {
  import opened Wrappers
  import opened Node
  import opened Ordering
  import opened GpsPad
  import GpsElement

  /** `ElementInfo` of `pipeline.rs`: names are optional and the rank is signed. */
  datatype ElementInfo = ElementInfo(name: Option<string>, pluginName: Option<string>, rank: int)

  /** `ElementInfo::default`: no names, rank -1. */
  function DefaultInfo(): (e: ElementInfo)
    ensures e.name.None? && e.pluginName.None? && e.rank == -1
  {
    ElementInfo(None, None, -1)
  }

  /** The derived order: by name, then plugin name (`None` first), then rank. */
  predicate InfoLe(a: ElementInfo, b: ElementInfo)
  {
    if a.name != b.name then OptStrLe(a.name, b.name)
    else if a.pluginName != b.pluginName then OptStrLe(a.pluginName, b.pluginName)
    else a.rank <= b.rank
  }

  lemma InfoLeTotalOrder()
    ensures TotalOrder(InfoLe)
  {
    OptStrLeLaws();
  }

  /** A registry feature: its name and whether it is an element factory. */
  datatype Feature = Feature(name: string, isElementFactory: bool)

  /** A registry plugin and its features, in registry order. */
  datatype Plugin = Plugin(name: string, features: seq<Feature>)

  /** The entries one plugin contributes: its element factories, named, with the default rank. */
  function PluginInfos(plugin: Plugin, features: seq<Feature>): seq<ElementInfo>
  {
    if features == [] then []
    else
      var f := features[|features| - 1];
      PluginInfos(plugin, features[..|features| - 1])
      + (if f.isElementFactory then [DefaultInfo().(name := Some(f.name), pluginName := Some(plugin.name))] else [])
  }

  /** Every element factory of every plugin, in registry order. */
  function Collected(plugins: seq<Plugin>): seq<ElementInfo>
  {
    if plugins == [] then []
    else Collected(plugins[..|plugins| - 1]) + PluginInfos(plugins[|plugins| - 1], plugins[|plugins| - 1].features)
  }

  lemma {:induction false} PluginInfosNamed(plugin: Plugin, features: seq<Feature>)
    ensures forall e :: e in PluginInfos(plugin, features) ==>
      e.name.Some? && e.pluginName == Some(plugin.name) && e.rank == -1
  {
    if features != [] {
      PluginInfosNamed(plugin, features[..|features| - 1]);
    }
  }

  /** Every collected entry has both names and keeps the default rank -1. */
  lemma {:induction false} CollectedNamed(plugins: seq<Plugin>)
    ensures forall e :: e in Collected(plugins) ==> e.name.Some? && e.pluginName.Some? && e.rank == -1
  {
    if plugins != [] {
      CollectedNamed(plugins[..|plugins| - 1]);
      PluginInfosNamed(plugins[|plugins| - 1], plugins[|plugins| - 1].features);
    }
  }

  /**
   * `elements_list`: every element factory of every plugin, with both names
   * set and the rank left at -1, in ascending derived order.
   */
  method ElementsList(plugins: seq<Plugin>) returns (elements: seq<ElementInfo>)
    ensures SortedBy(InfoLe, elements)
    ensures multiset(elements) == multiset(Collected(plugins))
    ensures forall e :: e in elements ==> e.name.Some? && e.pluginName.Some? && e.rank == -1
  {
    var found: seq<ElementInfo> := [];
    var i := 0;
    while i < |plugins|
      invariant 0 <= i <= |plugins|
      invariant found == Collected(plugins[..i])
    {
      found := AddPluginInfos(found, plugins[i]);
      assert plugins[..i + 1][..i] == plugins[..i];
      i := i + 1;
    }
    assert plugins[..i] == plugins;
    elements := Sort(InfoLe, found);
    SortedInfos(plugins);
  }

  /** The inner loop of `elements_list`: one plugin's element factories, appended in order. */
  method AddPluginInfos(found: seq<ElementInfo>, plugin: Plugin) returns (r: seq<ElementInfo>)
    ensures r == found + PluginInfos(plugin, plugin.features)
  {
    r := found;
    var j := 0;
    while j < |plugin.features|
      invariant 0 <= j <= |plugin.features|
      invariant r == found + PluginInfos(plugin, plugin.features[..j])
    {
      var feature := plugin.features[j];
      assert plugin.features[..j + 1][..j] == plugin.features[..j];
      if feature.isElementFactory {
        var element := DefaultInfo();
        element := element.(name := Some(feature.name), pluginName := Some(plugin.name));
        r := r + [element];
      }
      j := j + 1;
    }
    assert plugin.features[..j] == plugin.features;
  }

  /** The sorted list holds the collected entries, ordered. */
  lemma SortedInfos(plugins: seq<Plugin>)
    ensures SortedBy(InfoLe, Sort(InfoLe, Collected(plugins)))
    ensures multiset(Sort(InfoLe, Collected(plugins))) == multiset(Collected(plugins))
    ensures forall e :: e in Sort(InfoLe, Collected(plugins)) ==> e.name.Some? && e.pluginName.Some? && e.rank == -1
  {
    InfoLeTotalOrder();
    SortCorrect(InfoLe, Collected(plugins));
    CollectedNamed(plugins);
    forall e | e in Sort(InfoLe, Collected(plugins))
      ensures e.name.Some? && e.pluginName.Some? && e.rank == -1
    {
      assert e in multiset(Sort(InfoLe, Collected(plugins)));
    }
  }

  /**
   * `pads`: counts the kept templates, sources as outputs and sinks as
   * inputs; a template facing neither way is not counted.
   */
  method Pads(templates: seq<PadTemplate>, includeOnRequest: bool) returns (input: nat, output: nat)
    ensures input == KeptCount(templates, includeOnRequest, PadDirection.Sink)
    ensures output == KeptCount(templates, includeOnRequest, Src)
  {
    input, output := 0, 0;
    var i := 0;
    while i < |templates|
      invariant 0 <= i <= |templates|
      invariant input == KeptCount(templates[..i], includeOnRequest, PadDirection.Sink)
      invariant output == KeptCount(templates[..i], includeOnRequest, Src)
    {
      var pad := templates[i];
      assert templates[..i + 1][..i] == templates[..i];
      if pad.presence == PadAlways || (includeOnRequest && (pad.presence == PadRequest || pad.presence == PadSometimes)) {
        if pad.direction == Src {
          output := output + 1;
        } else if pad.direction == PadDirection.Sink {
          input := input + 1;
        }
      }
      i := i + 1;
    }
    assert templates[..i] == templates;
  }

  /** `element_type`: `Transform` with inputs and outputs, `Sink` with inputs only, `Source` otherwise. */
  function ElementType(inputs: nat, outputs: nat): (t: NodeType)
    ensures t == Transform <==> inputs > 0 && outputs > 0
    ensures t == NodeType.Sink <==> inputs > 0 && outputs == 0
    ensures t == Source <==> inputs == 0
  {
    if inputs > 0 then (if outputs > 0 then Transform else NodeType.Sink)
    else Source
  }

  /**
   * The count of a direction is the length of the pad list the newer
   * catalog builds for it, so both decide the same node type.
   */
  lemma CountsMatchPadLists(templates: seq<PadTemplate>, elementName: string)
    ensures ElementType(KeptCount(templates, true, PadDirection.Sink), KeptCount(templates, true, Src))
      == GpsElement.CatalogType(templates, elementName)
  {
    EntriesCount(templates, elementName, true, PadDirection.Sink);
    EntriesCount(templates, elementName, true, Src);
  }

  datatype PipelineState = Playing | Paused | Stopped

  /** What the engine is asked for: `Stopped` is the engine's null state. */
  datatype EngineState = EngineNull | EnginePaused | EnginePlaying

  function EngineTarget(state: PipelineState): (e: EngineState)
    ensures e == EngineNull <==> state == Stopped
  {
    match state
    case Playing => EnginePlaying
    case Paused => EnginePaused
    case Stopped => EngineNull
  }

  /** An engine pipeline: the description it was parsed from and the states requested from it. */
  datatype Engine = Engine(description: string, requested: seq<EngineState>)

  /** How `create_pipeline` ends: the pipeline installed, an error returned, or a panic at one of its `expect`s. */
  datatype Creation = Installed | Refused | Panicked

  class Pipeline {
    var pipeline: Option<Engine>
    var currentState: PipelineState

    /** `Pipeline::new`: stopped, without an engine pipeline. */
    constructor ()
      ensures pipeline.None? && currentState == Stopped
    {
      pipeline := None;
      currentState := Stopped;
    }

    /**
     * `create_pipeline`: a description the engine parses into a pipeline,
     * and whose bus can be watched, becomes the pipeline; the state is left
     * alone. A parse result that is not a pipeline (a one-element description
     * parses to the bare element) or one without a bus ends in a panic.
     */
    method CreatePipeline(description: string) returns (r: Creation)
      modifies this
      ensures r == Installed ==> pipeline == Some(Engine(description, []))
      ensures r != Installed ==> pipeline == old(pipeline)
      ensures currentState == old(currentState)
    {
      var parsed: bool :| true;
      if !parsed {
        return Refused;
      }
      var isPipeline: bool :| true;
      if !isPipeline {
        return Panicked;
      }
      var hasBus: bool :| true;
      if !hasBus {
        return Panicked;
      }
      var watched: bool :| true;
      if !watched {
        return Refused;
      }
      pipeline := Some(Engine(description, []));
      return Installed;
    }

    /**
     * `set_state`: without a pipeline nothing happens and the call succeeds;
     * with one, the engine is asked for the state and, when it accepts,
     * the state is taken; a refusal is returned as the error.
     */
    method SetState(state: PipelineState) returns (r: Result<()>)
      modifies this
      ensures old(pipeline).None? ==> r.Ok? && pipeline == old(pipeline) && currentState == old(currentState)
      ensures old(pipeline).Some? ==> pipeline == Some(old(pipeline).value.(requested := old(pipeline).value.requested + [EngineTarget(state)]))
      ensures r.Ok? && old(pipeline).Some? ==> currentState == state
      ensures r.Err? ==> currentState == old(currentState) && old(pipeline).Some?
    {
      if pipeline.None? {
        return Ok(());
      }
      var engine := pipeline.value;
      pipeline := Some(engine.(requested := engine.requested + [EngineTarget(state)]));
      var accepted: bool :| true;
      if !accepted {
        return Err;
      }
      currentState := state;
      return Ok(());
    }

    function State(): PipelineState
      reads this
    {
      currentState
    }
  }

  /**
   * Any run of state requests on a pipeline object that was never given an
   * engine pipeline reports success every time and leaves it `Stopped`: the
   * state only follows an engine pipeline.
   */
  method SetStateWithoutPipeline(states: seq<PipelineState>) returns (before: PipelineState, after: PipelineState, ok: bool)
    ensures before == Stopped && after == Stopped && ok
  {
    var p := new Pipeline();
    before := p.State();
    ok := true;
    for i := 0 to |states|
      invariant p.pipeline.None? && p.currentState == Stopped && ok
    {
      var r := p.SetState(states[i]);
      ok := ok && r.Ok?;
    }
    after := p.State();
  }
}
