/**
 * Ports of a node (`port.rs`): direction and presence, their textual form,
 * and the port object with its name, selection flag and properties.
 */
module Port {
  import opened Wrappers
  import opened Property

  datatype PortDirection = Input | Output | All | Unknown

  datatype PortPresence = Always | Sometimes | Unknown

  /** `Display` of a direction: the variant's name. */
  function DirectionName(d: PortDirection): string
  {
    match d
    case Input => "Input"
    case Output => "Output"
    case All => "All"
    case Unknown => "Unknown"
  }

  /** `PortDirection::from_str`: never fails; text that names no direction is `Unknown`. */
  function DirectionFromStr(s: string): PortDirection
  {
    if s == "Input" then Input
    else if s == "Output" then Output
    else if s == "All" then All
    else PortDirection.Unknown
  }

  /** `Display` of a presence: the variant's name. */
  function PresenceName(p: PortPresence): string
  {
    match p
    case Always => "Always"
    case Sometimes => "Sometimes"
    case Unknown => "Unknown"
  }

  /** `PortPresence::from_str`: never fails; text that names no presence is `Unknown`. */
  function PresenceFromStr(s: string): PortPresence
  {
    if s == "Always" then Always
    else if s == "Sometimes" then Sometimes
    else PortPresence.Unknown
  }

  /** Every direction reads back from its own name. */
  lemma DirectionRoundTrip(d: PortDirection)
    ensures DirectionFromStr(DirectionName(d)) == d
  {
  }

  /** Parsing only recognises the names it writes; anything else is `Unknown`. */
  lemma DirectionFromStrNames(s: string)
    ensures DirectionFromStr(s) == PortDirection.Unknown
      || DirectionName(DirectionFromStr(s)) == s
  {
  }

  /** Every presence reads back from its own name. */
  lemma PresenceRoundTrip(p: PortPresence)
    ensures PresenceFromStr(PresenceName(p)) == p
  {
  }

  /** Parsing only recognises the names it writes; anything else is `Unknown`. */
  lemma PresenceFromStrNames(s: string)
    ensures PresenceFromStr(s) == PortPresence.Unknown
      || PresenceName(PresenceFromStr(s)) == s
  {
  }

  class Port {
    const id: nat
    const direction: PortDirection
    const presence: PortPresence
    var name: string
    var selected: bool
    var properties: Properties

    /** `Port::new`: unselected, with no properties. */
    constructor (id: nat, name: string, direction: PortDirection, presence: PortPresence)
      ensures this.id == id && this.name == name
      ensures this.direction == direction && this.presence == presence
      ensures !selected && properties == map[]
    {
      this.id := id;
      this.name := name;
      this.direction := direction;
      this.presence := presence;
      selected := false;
      properties := map[];
    }

    method SetName(name: string)
      modifies this
      ensures this.name == name
      ensures selected == old(selected) && properties == old(properties)
    {
      this.name := name;
    }

    method ToggleSelected()
      modifies this
      ensures selected == !old(selected)
      ensures name == old(name) && properties == old(properties)
    {
      SetSelected(!selected);
    }

    method SetSelected(selected: bool)
      modifies this
      ensures this.selected == selected
      ensures name == old(name) && properties == old(properties)
    {
      this.selected := selected;
    }

    /** `add_property`: inserts or overwrites one property. */
    method AddProperty(name: string, value: string)
      modifies this
      ensures properties == old(properties)[name := value]
      ensures this.name == old(this.name) && selected == old(selected)
    {
      properties := properties[name := value];
    }

    /** `remove_property`: drops one property if present. */
    method RemoveProperty(name: string)
      modifies this
      ensures properties == old(properties) - {name}
      ensures this.name == old(this.name) && selected == old(selected)
    {
      properties := properties - {name};
    }

    /** `update_properties`, inherited from the property trait. */
    method UpdateProperties(updates: Properties)
      modifies this
      ensures properties == Updated(old(properties), updates)
      ensures name == old(name) && selected == old(selected)
    {
      properties := Property.UpdateProperties(properties, updates);
    }

    /** `property`: the value of one property, if set. */
    function GetProperty(name: string): (r: Option<string>)
      reads this
      ensures r.Some? <==> name in properties
      ensures r.Some? ==> r.value == properties[name]
    {
      Lookup(properties, name)
    }
  }
}
