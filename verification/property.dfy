/**
 * Named string properties shared by nodes and ports (`PropertyExt`):
 * hidden names, the batch update and the lookup.
 */
module Property {
  import opened Wrappers

  type Properties = map<string, string>

  /** A property whose name starts with '_' is internal and never shown or serialised into a pipeline. */
  predicate IsHidden(name: string)
  {
    |name| > 0 && name[0] == '_'
  }

  /**
   * The properties a batch update leaves: a key given with an empty value is
   * removed, a key given with a non-empty value is set, every other key keeps
   * its value.
   */
  function Updated(props: Properties, updates: Properties): Properties
  {
    map k | k in props.Keys + updates.Keys && !(k in updates && updates[k] == "")
      :: if k in updates then updates[k] else props[k]
  }

  /** The properties whose names are not hidden. */
  function Visible(props: Properties): Properties
  {
    map k | k in props && !IsHidden(k) :: props[k]
  }

  /** No property has the empty string as its value. */
  predicate NoEmptyValues(props: Properties)
  {
    forall k :: k in props ==> props[k] != ""
  }

  /**
   * `update_properties`: visits the updates one key at a time, in no fixed
   * order, removing the key when the value is empty and inserting it otherwise.
   */
  method UpdateProperties(props: Properties, updates: Properties) returns (r: Properties)
    ensures r == Updated(props, updates)
  {
    r := props;
    var pending := updates.Keys;
    while pending != {}
      invariant pending <= updates.Keys
      invariant forall k :: k in updates && k !in pending ==>
        (if updates[k] == "" then k !in r else k in r && r[k] == updates[k])
      invariant forall k :: k !in updates || k in pending ==>
        (k in r <==> k in props) && (k in r ==> r[k] == props[k])
      decreases pending
    {
      var key :| key in pending;
      if updates[key] == "" {
        r := r - {key};
      } else {
        r := r[key := updates[key]];
      }
      pending := pending - {key};
    }
  }

  /** `property`: the value stored under `name`, if any. */
  function Lookup(props: Properties, name: string): (r: Option<string>)
    ensures r.Some? <==> name in props
    ensures r.Some? ==> r.value == props[name]
  {
    if name in props then Some(props[name]) else None
  }

  /** After an update, a key that was given reads back its non-empty value, or is gone. */
  lemma LookupAfterUpdate(props: Properties, updates: Properties, name: string)
    requires name in updates
    ensures Lookup(Updated(props, updates), name)
      == if updates[name] == "" then None else Some(updates[name])
  {
  }

  /** Keys the update does not mention are untouched. */
  lemma UpdateKeepsOthers(props: Properties, updates: Properties, name: string)
    requires name !in updates
    ensures Lookup(Updated(props, updates), name) == Lookup(props, name)
  {
  }

  /** Applying the same update twice is the same as applying it once. */
  lemma UpdateIdempotent(props: Properties, updates: Properties)
    ensures Updated(Updated(props, updates), updates) == Updated(props, updates)
  {
  }

  /** Starting from no properties, an update yields exactly its non-empty entries. */
  lemma UpdateFromEmpty(updates: Properties)
    requires NoEmptyValues(updates)
    ensures Updated(map[], updates) == updates
  {
  }

  /** An update never stores an empty value. */
  lemma UpdateStoresNoEmpty(props: Properties, updates: Properties)
    requires NoEmptyValues(props)
    ensures NoEmptyValues(Updated(props, updates))
  {
  }
}
