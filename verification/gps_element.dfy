/**
 * Catalog decisions of `gps/element.rs`: the sorted element list, the node
 * type an element gets from its pad templates, the pad a new request can be
 * made on, the text of a property value, the search through nested bins and
 * the choice of the URI property of a source or sink. Registry lookups and
 * element instances become values: a plugin list, a template list, an
 * element tree and an element description.
 */
module GpsElement {
  import opened Wrappers
  import opened Text
  import opened Port
  import opened Node
  import opened Ordering
  import opened GpsPad

  /** `ElementInfo`; its derived `Default` is empty names and rank 0. */
  datatype ElementInfo = ElementInfo(name: string, pluginName: string, rank: int)

  const DEFAULT_INFO: ElementInfo := ElementInfo("", "", 0)

  /** The derived order of `ElementInfo`: by name, then plugin name, then rank. */
  predicate InfoLe(a: ElementInfo, b: ElementInfo)
  {
    if a.name != b.name then StrLe(a.name, b.name)
    else if a.pluginName != b.pluginName then StrLe(a.pluginName, b.pluginName)
    else a.rank <= b.rank
  }

  lemma InfoLeTotalOrder()
    ensures TotalOrder(InfoLe)
  {
    StrLeLaws();
  }

  /** A registry feature: its name and whether it is an element factory. */
  datatype Feature = Feature(name: string, isElementFactory: bool)

  /** A registry plugin and its features, in registry order. */
  datatype Plugin = Plugin(name: string, features: seq<Feature>)

  /** The entries one plugin contributes: its element factories, in order. */
  function PluginInfos(plugin: Plugin, features: seq<Feature>): seq<ElementInfo>
  {
    if features == [] then []
    else
      var f := features[|features| - 1];
      PluginInfos(plugin, features[..|features| - 1])
      + (if f.isElementFactory then [DEFAULT_INFO.(name := f.name, pluginName := plugin.name)] else [])
  }

  /** Every element factory of every plugin, in registry order. */
  function Collected(plugins: seq<Plugin>): seq<ElementInfo>
  {
    if plugins == [] then []
    else Collected(plugins[..|plugins| - 1]) + PluginInfos(plugins[|plugins| - 1], plugins[|plugins| - 1].features)
  }

  /**
   * `elements_list`: every element factory of every plugin, named after the
   * feature and its plugin, with the default rank, sorted.
   */
  method ElementsList(plugins: seq<Plugin>) returns (elements: seq<ElementInfo>)
    ensures SortedBy(InfoLe, elements)
    ensures multiset(elements) == multiset(Collected(plugins))
    ensures forall e :: e in elements ==> e.rank == 0
  {
    var found: seq<ElementInfo> := [];
    var i := 0;
    while i < |plugins|
      invariant 0 <= i <= |plugins|
      invariant found == Collected(plugins[..i])
    {
      found := AddPluginInfos(found, plugins[i]);
      assert plugins[..i + 1][..i] == plugins[..i];
      i := i + 1;
    }
    assert plugins[..i] == plugins;
    elements := Sort(InfoLe, found);
    SortedInfos(plugins);
  }

  /** The inner loop of `elements_list`: one plugin's element factories, appended in order. */
  method AddPluginInfos(found: seq<ElementInfo>, plugin: Plugin) returns (r: seq<ElementInfo>)
    ensures r == found + PluginInfos(plugin, plugin.features)
  {
    r := found;
    var j := 0;
    while j < |plugin.features|
      invariant 0 <= j <= |plugin.features|
      invariant r == found + PluginInfos(plugin, plugin.features[..j])
    {
      var feature := plugin.features[j];
      assert plugin.features[..j + 1][..j] == plugin.features[..j];
      if feature.isElementFactory {
        var element := DEFAULT_INFO;
        element := element.(name := feature.name, pluginName := plugin.name);
        r := r + [element];
      }
      j := j + 1;
    }
    assert plugin.features[..j] == plugin.features;
  }

  /** The sorted list holds the collected entries, ordered. */
  lemma SortedInfos(plugins: seq<Plugin>)
    ensures SortedBy(InfoLe, Sort(InfoLe, Collected(plugins)))
    ensures multiset(Sort(InfoLe, Collected(plugins))) == multiset(Collected(plugins))
    ensures forall e :: e in Sort(InfoLe, Collected(plugins)) ==> e.rank == 0
  {
    InfoLeTotalOrder();
    SortCorrect(InfoLe, Collected(plugins));
    CollectedRanks(plugins);
    forall e | e in Sort(InfoLe, Collected(plugins))
      ensures e.rank == 0
    {
      assert e in multiset(Sort(InfoLe, Collected(plugins)));
    }
  }

  /** Every collected entry keeps the default rank. */
  lemma {:induction false} CollectedRanks(plugins: seq<Plugin>)
    ensures forall e :: e in Collected(plugins) ==> e.rank == 0
  {
    if plugins != [] {
      CollectedRanks(plugins[..|plugins| - 1]);
      PluginInfosRanks(plugins[|plugins| - 1], plugins[|plugins| - 1].features);
    }
  }

  lemma {:induction false} PluginInfosRanks(plugin: Plugin, features: seq<Feature>)
    ensures forall e :: e in PluginInfos(plugin, features) ==> e.rank == 0 && e.pluginName == plugin.name
  {
    if features != [] {
      PluginInfosRanks(plugin, features[..|features| - 1]);
    }
  }

  /**
   * `element_type`: `Transform` with inputs and outputs, `Sink` with inputs
   * only, `Source` otherwise (outputs only, or no pads at all).
   */
  function ElementType(inputs: seq<PadInfo>, outputs: seq<PadInfo>): (t: NodeType)
    ensures t == Transform <==> inputs != [] && outputs != []
    ensures t == NodeType.Sink <==> inputs != [] && outputs == []
    ensures t == Source <==> inputs == []
  {
    if inputs != [] then (if outputs != [] then Transform else NodeType.Sink)
    else Source
  }

  /** The type of a factory from its templates, counting request and sometimes pads. */
  function CatalogType(templates: seq<PadTemplate>, elementName: string): NodeType
  {
    ElementType(Entries(templates, elementName, true, PadDirection.Sink), Entries(templates, elementName, true, Src))
  }

  /** A factory is a source exactly when no sink template of any presence the filter keeps exists. */
  lemma CatalogTypeSource(templates: seq<PadTemplate>, elementName: string)
    ensures CatalogType(templates, elementName) == Source <==>
      forall t :: t in templates && t.direction == PadDirection.Sink ==> t.presence == PresenceOther
  {
    EntriesMembers(templates, elementName, true, PadDirection.Sink);
    if CatalogType(templates, elementName) != Source {
      var e := Entries(templates, elementName, true, PadDirection.Sink)[0];
      assert e in Entries(templates, elementName, true, PadDirection.Sink);
    }
  }

  /** The first entry of `pads` that may be created on request. */
  function FirstSometimes(pads: seq<PadInfo>): (r: Option<PadInfo>)
    ensures r.None? <==> forall i :: 0 <= i < |pads| ==> pads[i].presence != Sometimes
    ensures r.Some? ==> exists i :: (0 <= i < |pads| && pads[i] == r.value && r.value.presence == Sometimes
      && forall j :: 0 <= j < i ==> pads[j].presence != Sometimes)
  {
    if pads == [] then None
    else if pads[0].presence == Sometimes then Some(pads[0])
    else
      var r := FirstSometimes(pads[1..]);
      assert forall i :: 0 < i < |pads| ==> pads[i] == pads[1..][i - 1];
      r
  }

  /**
   * `element_supports_new_pad_request`: the first `Sometimes` entry among
   * the inputs or the outputs, as asked; nothing for any other direction.
   */
  method SupportsNewPadRequest(templates: seq<PadTemplate>, elementName: string, direction: PortDirection)
    returns (r: Option<PadInfo>)
    ensures direction == Input ==> r == FirstSometimes(Entries(templates, elementName, true, PadDirection.Sink))
    ensures direction == Output ==> r == FirstSometimes(Entries(templates, elementName, true, Src))
    ensures direction != Input && direction != Output ==> r.None?
  {
    var inputs, outputs := Pads(templates, elementName, true);
    var pads: seq<PadInfo> := if direction == Input then inputs else if direction == Output then outputs else [];
    var i := 0;
    while i < |pads|
      invariant 0 <= i <= |pads|
      invariant forall j :: 0 <= j < i ==> pads[j].presence != Sometimes
    {
      if pads[i].presence == Sometimes {
        assert FirstSometimes(pads[i..]) == Some(pads[i]);
        FirstSometimesSkip(pads, i);
        return Some(pads[i]);
      }
      i := i + 1;
    }
    return None;
  }

  lemma {:induction false} FirstSometimesSkip(pads: seq<PadInfo>, i: nat)
    requires i <= |pads|
    requires forall j :: 0 <= j < i ==> pads[j].presence != Sometimes
    ensures FirstSometimes(pads) == FirstSometimes(pads[i..])
  {
    if i > 0 {
      assert pads[1..][i - 1..] == pads[i..];
      FirstSometimesSkip(pads[1..], i - 1);
    }
  }

  /** A new pad can be requested facing `dir` exactly when a sometimes or request template faces it. */
  lemma RequestablePad(templates: seq<PadTemplate>, elementName: string, dir: PadDirection)
    ensures FirstSometimes(Entries(templates, elementName, true, dir)).Some? <==>
      exists t :: t in templates && t.direction == dir && (t.presence == PadSometimes || t.presence == PadRequest)
  {
    var es := Entries(templates, elementName, true, dir);
    EntriesMembers(templates, elementName, true, dir);
    if FirstSometimes(es).Some? {
      var i :| 0 <= i < |es| && es[i].presence == Sometimes;
      assert es[i] in es;
    }
    if exists t :: t in templates && t.direction == dir && (t.presence == PadSometimes || t.presence == PadRequest) {
      var t :| t in templates && t.direction == dir && (t.presence == PadSometimes || t.presence == PadRequest);
      var i :| 0 <= i < |es| && es[i] == Entry(t, elementName);
      assert es[i].presence == Sometimes;
    }
  }

  /** A property value as the element reports it, by kind. */
  datatype PropertyValue =
    | EnumValue(nick: string)
    | FlagsValue(flags: seq<bv32>)
    | FloatValue(text: string)
    | OtherValue(value: Option<string>)

  /** The fold of a flags value: the bitwise OR of its set flags. */
  function FlagsOr(flags: seq<bv32>): bv32
  {
    if flags == [] then 0 else FlagsOr(flags[..|flags| - 1]) | flags[|flags| - 1]
  }

  /** Every bit set in `f` is set in `m`. */
  predicate Covered(f: bv32, m: bv32)
  {
    f & m == f
  }

  /** Every flag's bits are set in `m`. */
  predicate AllCovered(flags: seq<bv32>, m: bv32)
  {
    forall i :: 0 <= i < |flags| ==> Covered(flags[i], m)
  }

  lemma OrCovers(a: bv32, b: bv32, x: bv32)
    ensures Covered(x, a) ==> Covered(x, a | b)
    ensures Covered(b, a | b)
  {
  }

  lemma OrBounded(a: bv32, b: bv32, m: bv32)
    requires Covered(a, m) && Covered(b, m)
    ensures Covered(a | b, m)
  {
  }

  /** The OR holds every flag. */
  lemma {:induction false} FlagsOrCovers(flags: seq<bv32>)
    ensures AllCovered(flags, FlagsOr(flags))
  {
    if flags != [] {
      var front, last := flags[..|flags| - 1], flags[|flags| - 1];
      FlagsOrCovers(front);
      CoveredExtend(front, last, FlagsOr(front));
      assert front + [last] == flags;
    }
  }

  /** OR-ing one more flag into a value that holds some flags holds them and it. */
  lemma CoveredExtend(front: seq<bv32>, last: bv32, acc: bv32)
    requires AllCovered(front, acc)
    ensures AllCovered(front + [last], acc | last)
  {
    forall i | 0 <= i < |front| + 1
      ensures Covered((front + [last])[i], acc | last)
    {
      if i < |front| {
        OrCovers(acc, last, front[i]);
      } else {
        OrCovers(acc, last, last);
      }
    }
  }

  /** The OR holds nothing beyond the flags: any value covering them all covers it. */
  lemma {:induction false} FlagsOrLeast(flags: seq<bv32>, m: bv32)
    requires AllCovered(flags, m)
    ensures Covered(FlagsOr(flags), m)
  {
    if flags != [] {
      var front, last := flags[..|flags| - 1], flags[|flags| - 1];
      assert AllCovered(front, m) by {
        forall i | 0 <= i < |front|
          ensures Covered(front[i], m)
        {
          assert front[i] == flags[i];
        }
      }
      FlagsOrLeast(front, m);
      OrBounded(FlagsOr(front), last, m);
    }
  }

  /** `replace(',', ".")` on a float's text. */
  function CommaToDot(s: string): (r: string)
    ensures |r| == |s| && ',' !in r
    ensures forall i :: 0 <= i < |s| ==> r[i] == if s[i] == ',' then '.' else s[i]
  {
    if s == [] then [] else [if s[0] == ',' then '.' else s[0]] + CommaToDot(s[1..])
  }

  predicate IsUpper(c: char)
  {
    'A' <= c <= 'Z'
  }

  /** One character lowercased: an ASCII capital becomes its small letter, anything else stays. */
  function LowerChar(c: char): (l: char)
    ensures !IsUpper(l)
    ensures IsUpper(c) ==> 'a' <= l <= 'z' && l as int - 'a' as int == c as int - 'A' as int
    ensures !IsUpper(c) ==> l == c
  {
    if IsUpper(c) then (c as int + 32) as char else c
  }

  /** `to_lowercase` on ASCII letters. */
  function Lower(s: string): (r: string)
    ensures |r| == |s|
    ensures forall i :: 0 <= i < |s| ==> r[i] == LowerChar(s[i])
  {
    if s == [] then [] else [LowerChar(s[0])] + Lower(s[1..])
  }

  /** Lowering twice changes nothing more. */
  lemma LowerIdempotent(s: string)
    ensures Lower(Lower(s)) == Lower(s)
  {
  }

  /**
   * `element_property`: an enum by its nick, flags by the decimal value of
   * their OR, a float with its decimal comma turned into a point, anything
   * else lowercased (a value that is not a string becomes "").
   */
  function ElementProperty(v: PropertyValue): (r: string)
    ensures v.EnumValue? ==> r == v.nick
    ensures v.FlagsValue? ==> r == NatToString(FlagsOr(v.flags) as nat) && ParseU32(r) == Some(FlagsOr(v.flags) as nat)
    ensures v.FloatValue? ==>
      |r| == |v.text| && ',' !in r && forall i :: 0 <= i < |r| ==> r[i] == if v.text[i] == ',' then '.' else v.text[i]
    ensures v.OtherValue? && v.value.None? ==> r == ""
    ensures v.OtherValue? && v.value.Some? ==>
      |r| == |v.value.value| && forall i :: 0 <= i < |r| ==> r[i] == LowerChar(v.value.value[i])
  {
    match v
    case EnumValue(nick) => nick
    case FlagsValue(flags) =>
      ParseNatToString(FlagsOr(flags) as nat);
      NatToString(FlagsOr(flags) as nat)
    case FloatValue(text) => CommaToDot(text)
    case OtherValue(value) => Lower(value.UnwrapOr(""))
  }

  /** An element inside a bin: a plain element with its factory name, or a bin holding more. */
  datatype Element = Leaf(factory: string) | Bin(binFactory: string, children: seq<Element>)

  /** An element whose factory matches the searched name (every element when the name is empty). */
  predicate Matches(e: Element, name: string)
  {
    e.Leaf? && (e.factory == name || name == "")
  }

  /** What the search returns for a list of children, in iteration order. */
  function Found(children: seq<Element>, name: string): seq<Element>
    decreases children
  {
    if children == [] then []
    else
      var e := children[|children| - 1];
      Found(children[..|children| - 1], name)
      + (if e.Bin? then Found(e.children, name) else if Matches(e, name) then [e] else [])
  }

  /** Every plain element reachable from the children, through bins, in iteration order. */
  function Leaves(children: seq<Element>): seq<Element>
    decreases children
  {
    if children == [] then []
    else
      var e := children[|children| - 1];
      Leaves(children[..|children| - 1]) + (if e.Bin? then Leaves(e.children) else [e])
  }

  /** The elements of `s` that match `name`, in order. */
  function Matching(s: seq<Element>, name: string): seq<Element>
  {
    if s == [] then [] else Matching(s[..|s| - 1], name) + (if Matches(s[|s| - 1], name) then [s[|s| - 1]] else [])
  }

  lemma {:induction false} MatchingAppend(a: seq<Element>, b: seq<Element>, name: string)
    ensures Matching(a + b, name) == Matching(a, name) + Matching(b, name)
    decreases |b|
  {
    if b == [] {
      assert a + b == a;
    } else {
      assert (a + b)[..|a + b| - 1] == a + b[..|b| - 1];
      MatchingAppend(a, b[..|b| - 1], name);
    }
  }

  /**
   * The search returns exactly the reachable plain elements that match, in
   * order: bins are entered but never returned, and an empty name matches
   * every plain element.
   */
  lemma {:induction false} FoundIsMatchingLeaves(children: seq<Element>, name: string)
    ensures Found(children, name) == Matching(Leaves(children), name)
    decreases children
  {
    if children != [] {
      var front, e := children[..|children| - 1], children[|children| - 1];
      FoundIsMatchingLeaves(front, name);
      if e.Bin? {
        FoundIsMatchingLeaves(e.children, name);
        MatchingAppend(Leaves(front), Leaves(e.children), name);
      } else {
        MatchingAppend(Leaves(front), [e], name);
      }
    }
  }

  /** With an empty name every reachable plain element is returned. */
  lemma {:induction false} FoundAll(children: seq<Element>)
    ensures Found(children, "") == Leaves(children)
  {
    FoundIsMatchingLeaves(children, "");
    LeavesArePlain(children);
    MatchingAll(Leaves(children));
  }

  lemma {:induction false} MatchingAll(s: seq<Element>)
    requires forall e :: e in s ==> e.Leaf?
    ensures Matching(s, "") == s
  {
    if s != [] {
      MatchingAll(s[..|s| - 1]);
    }
  }

  lemma {:induction false} LeavesArePlain(children: seq<Element>)
    ensures forall e :: e in Leaves(children) ==> e.Leaf?
    decreases children
  {
    if children != [] {
      LeavesArePlain(children[..|children| - 1]);
      var e := children[|children| - 1];
      if e.Bin? {
        LeavesArePlain(e.children);
      }
    }
  }

  /** `search_for_element`: walks the bin's children, descending into every bin met. */
  method SearchForElement(bin: Element, name: string) returns (elements: seq<Element>)
    requires bin.Bin?
    ensures elements == Found(bin.children, name)
    ensures forall e :: e in elements ==> Matches(e, name)
    decreases bin
  {
    elements := [];
    var i := 0;
    while i < |bin.children|
      invariant 0 <= i <= |bin.children|
      invariant elements == Found(bin.children[..i], name)
    {
      var element := bin.children[i];
      assert bin.children[..i + 1][..i] == bin.children[..i];
      if element.Bin? {
        var binElements := SearchForElement(element, name);
        elements := elements + binElements;
      } else if element.factory == name || name == "" {
        elements := elements + [element];
      }
      i := i + 1;
    }
    assert bin.children[..i] == bin.children;
    FoundIsMatchingLeaves(bin.children, name);
    MatchingMatches(Leaves(bin.children), name);
  }

  lemma {:induction false} MatchingMatches(s: seq<Element>, name: string)
    ensures forall e :: e in Matching(s, name) ==> Matches(e, name)
  {
    if s != [] {
      MatchingMatches(s[..|s| - 1], name);
    }
  }

  /**
   * An element created from a factory, as far as the URI choice looks at
   * it: whether it is a bin, its pad templates, its readable properties and,
   * when it handles URIs, the protocols it accepts.
   */
  datatype CatalogElement = CatalogElement(
    isBin: bool, templates: seq<PadTemplate>, properties: set<string>, protocols: Option<seq<string>>)

  /** A URI handler accepting one of `schemes`; offers a file chooser. */
  predicate AcceptsAny(protocols: Option<seq<string>>, schemes: seq<string>)
  {
    protocols.Some? && exists s :: s in schemes && s in protocols.value
  }

  /**
   * `element_is_uri_src_handler`: a bin or a source element names its `uri`
   * property when it has one, else its `location` property; every other
   * element gets nothing. The flag tells whether a file chooser fits.
   */
  function UriSrcHandler(el: CatalogElement, elementName: string): (r: Option<(string, bool)>)
    ensures r.Some? <==> ((el.isBin || CatalogType(el.templates, elementName) == Source)
      && ("uri" in el.properties || "location" in el.properties))
    ensures r.Some? ==> (r.value.0 in el.properties && (r.value.0 == "uri" <==> "uri" in el.properties)
      && (r.value.0 == "uri" || r.value.0 == "location"))
    ensures r.Some? ==> r.value.1 == AcceptsAny(el.protocols, ["file", "pushfile"])
  {
    var fileChooser := AcceptsAny(el.protocols, ["file", "pushfile"]);
    if el.isBin || CatalogType(el.templates, elementName) == Source then
      if "uri" in el.properties then Some(("uri", fileChooser))
      else if "location" in el.properties then Some(("location", fileChooser))
      else None
    else None
  }

  /**
   * `element_is_uri_sink_handler`: the same choice for sink elements, with a
   * file chooser when the handler accepts the `file` protocol.
   */
  function UriSinkHandler(el: CatalogElement, elementName: string): (r: Option<(string, bool)>)
    ensures r.Some? <==> (CatalogType(el.templates, elementName) == NodeType.Sink
      && ("uri" in el.properties || "location" in el.properties))
    ensures r.Some? ==> (r.value.0 in el.properties && (r.value.0 == "uri" <==> "uri" in el.properties)
      && (r.value.0 == "uri" || r.value.0 == "location"))
    ensures r.Some? ==> r.value.1 == AcceptsAny(el.protocols, ["file"])
  {
    var fileChooser := AcceptsAny(el.protocols, ["file"]);
    if CatalogType(el.templates, elementName) == NodeType.Sink then
      if "uri" in el.properties then Some(("uri", fileChooser))
      else if "location" in el.properties then Some(("location", fileChooser))
      else None
    else None
  }

  /** No element is offered both as a URI source and as a URI sink unless it is a bin. */
  lemma UriHandlersExclusive(el: CatalogElement, elementName: string)
    requires !el.isBin
    ensures !(UriSrcHandler(el, elementName).Some? && UriSinkHandler(el, elementName).Some?)
  {
  }
}
