/**
 * Pads of a catalog element (`gps/pad.rs`): the static pad templates a
 * factory declares are turned into the input and output pad descriptions
 * the application builds ports from. The registry is not modelled; the
 * factory's template list is a parameter.
 */
module GpsPad {
  import opened Wrappers
  import opened Port

  /** `gst::PadDirection`. */
  datatype PadDirection = DirectionUnknown | Src | Sink

  /** `gst::PadPresence`; `PresenceOther` stands for a value the bindings do not name. */
  datatype PadPresence = PadAlways | PadSometimes | PadRequest | PresenceOther

  /** One static pad template of a factory. */
  datatype PadTemplate = PadTemplate(nameTemplate: string, direction: PadDirection, presence: PadPresence, caps: string)

  /** `PadInfo`: what the application keeps of a pad template. */
  datatype PadInfo = PadInfo(
    name: Option<string>, elementName: Option<string>,
    direction: PortDirection, presence: PortPresence, caps: Option<string>)

  /** `PadInfo::default`: nothing known, direction and presence `Unknown`. */
  function DefaultPadInfo(): (p: PadInfo)
    ensures p.name.None? && p.elementName.None? && p.caps.None?
    ensures p.direction == PortDirection.Unknown && p.presence == PortPresence.Unknown
  {
    PadInfo(None, None, PortDirection.Unknown, PortPresence.Unknown, None)
  }

  /** `pad_to_port_presence`: a request pad shows as a `Sometimes` port. */
  function PadToPortPresence(presence: PadPresence): (r: PortPresence)
    ensures r == Always <==> presence == PadAlways
    ensures r == Sometimes <==> presence == PadSometimes || presence == PadRequest
    ensures r == PortPresence.Unknown <==> presence == PresenceOther
  {
    match presence
    case PadAlways => Always
    case PadSometimes => Sometimes
    case PadRequest => Sometimes
    case PresenceOther => PortPresence.Unknown
  }

  /** The filter of `pads`: always-present templates, and request or sometimes ones when asked for. */
  predicate Kept(t: PadTemplate, includeOnRequest: bool)
  {
    t.presence == PadAlways
    || (includeOnRequest && (t.presence == PadRequest || t.presence == PadSometimes))
  }

  /** The entry `pads` builds from a kept template of element `elementName`. */
  function Entry(t: PadTemplate, elementName: string): PadInfo
  {
    PadInfo(Some(t.nameTemplate), Some(elementName),
      if t.direction == Src then Output else Input,
      PadToPortPresence(t.presence), Some(t.caps))
  }

  /** The entries for the kept templates facing `dir`, in template order. */
  function Entries(templates: seq<PadTemplate>, elementName: string, includeOnRequest: bool, dir: PadDirection): seq<PadInfo>
  {
    if templates == [] then []
    else
      var t := templates[|templates| - 1];
      Entries(templates[..|templates| - 1], elementName, includeOnRequest, dir)
      + (if Kept(t, includeOnRequest) && t.direction == dir then [Entry(t, elementName)] else [])
  }

  /**
   * `pads`: one pass over the templates, pushing an output entry for each
   * kept `Src` template and an input entry for each kept `Sink` template.
   */
  method Pads(templates: seq<PadTemplate>, elementName: string, includeOnRequest: bool)
    returns (input: seq<PadInfo>, output: seq<PadInfo>)
    ensures input == Entries(templates, elementName, includeOnRequest, Sink)
    ensures output == Entries(templates, elementName, includeOnRequest, Src)
  {
    input, output := [], [];
    var i := 0;
    while i < |templates|
      invariant 0 <= i <= |templates|
      invariant input == Entries(templates[..i], elementName, includeOnRequest, Sink)
      invariant output == Entries(templates[..i], elementName, includeOnRequest, Src)
    {
      var pad := templates[i];
      assert templates[..i + 1][..i] == templates[..i];
      if Kept(pad, includeOnRequest) {
        if pad.direction == Src {
          output := output + [Entry(pad, elementName)];
        } else if pad.direction == Sink {
          input := input + [Entry(pad, elementName)];
        }
      }
      i := i + 1;
    }
    assert templates[..i] == templates;
  }

  /**
   * Every entry names the element, carries caps and a name, faces the side
   * its template faces, and is always-present or sometimes-present; without
   * `includeOnRequest` only always-present entries appear.
   */
  lemma {:induction false} EntriesShape(templates: seq<PadTemplate>, elementName: string, includeOnRequest: bool, dir: PadDirection)
    requires dir == Src || dir == Sink
    ensures forall e :: e in Entries(templates, elementName, includeOnRequest, dir) ==>
      e.elementName == Some(elementName) && e.caps.Some? && e.name.Some?
      && e.direction == (if dir == Src then Output else Input)
      && (e.presence == Always || e.presence == Sometimes)
      && (!includeOnRequest ==> e.presence == Always)
  {
    if templates != [] {
      EntriesShape(templates[..|templates| - 1], elementName, includeOnRequest, dir);
    }
  }

  /** A template yields an entry exactly when it is kept and faces `dir`. */
  lemma {:induction false} EntriesMembers(templates: seq<PadTemplate>, elementName: string, includeOnRequest: bool, dir: PadDirection)
    ensures forall t :: t in templates && Kept(t, includeOnRequest) && t.direction == dir ==>
      Entry(t, elementName) in Entries(templates, elementName, includeOnRequest, dir)
    ensures forall e :: e in Entries(templates, elementName, includeOnRequest, dir) ==>
      exists t :: t in templates && Kept(t, includeOnRequest) && t.direction == dir && e == Entry(t, elementName)
  {
    if templates != [] {
      var front := templates[..|templates| - 1];
      EntriesMembers(front, elementName, includeOnRequest, dir);
      assert templates == front + [templates[|templates| - 1]];
    }
  }

  /** How many templates `pads` keeps facing `dir`. */
  function KeptCount(templates: seq<PadTemplate>, includeOnRequest: bool, dir: PadDirection): nat
  {
    if templates == [] then 0
    else
      var t := templates[|templates| - 1];
      KeptCount(templates[..|templates| - 1], includeOnRequest, dir)
      + (if Kept(t, includeOnRequest) && t.direction == dir then 1 else 0)
  }

  /** One entry per kept template: the counts of `pipeline.rs` are the lengths of these lists. */
  lemma {:induction false} EntriesCount(templates: seq<PadTemplate>, elementName: string, includeOnRequest: bool, dir: PadDirection)
    ensures |Entries(templates, elementName, includeOnRequest, dir)| == KeptCount(templates, includeOnRequest, dir)
    ensures KeptCount(templates, includeOnRequest, dir) <= |templates|
  {
    if templates != [] {
      EntriesCount(templates[..|templates| - 1], elementName, includeOnRequest, dir);
    }
  }

  /** Asking for request pads only adds entries: the always-present ones are kept either way. */
  lemma {:induction false} EntriesGrowWithRequest(templates: seq<PadTemplate>, dir: PadDirection)
    ensures KeptCount(templates, false, dir) <= KeptCount(templates, true, dir)
  {
    if templates != [] {
      EntriesGrowWithRequest(templates[..|templates| - 1], dir);
    }
  }
}
