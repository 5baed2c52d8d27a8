/**
 * Value views of the graph: what a node, a port and the whole graph view
 * hold, without the widgets. The XML writer and the pipeline-description
 * generator read the graph through these values; the graph view produces
 * them from its objects (`GraphView.Snapshot`).
 */
module GraphData {
  import opened Wrappers
  import opened Property
  import opened Port
  import opened Node

  /**
   * A link as `graphview.rs` uses it: the five ids of the newer link record,
   * a display name, the active flag and the selection flag.
   */
  datatype LinkRecord = LinkRecord(
    id: nat, nodeFrom: nat, nodeTo: nat, portFrom: nat, portTo: nat,
    name: string, active: bool, selected: bool)

  datatype PortValue = PortValue(
    id: nat, name: string, direction: PortDirection, presence: PortPresence,
    properties: Properties)

  datatype NodeValue = NodeValue(
    id: nat, name: string, nodeType: NodeType, light: bool,
    ports: map<nat, PortValue>, properties: Properties)

  datatype GraphValue = GraphValue(id: nat, nodes: map<nat, NodeValue>, links: map<nat, LinkRecord>)

  /** Two links join the same two ports, in either orientation (`link_exists`). */
  predicate SamePorts(a: LinkRecord, b: LinkRecord)
  {
    (a.portFrom == b.portFrom && a.portTo == b.portTo)
    || (a.portFrom == b.portTo && a.portTo == b.portFrom)
  }

  /** Some stored link already joins the ports of `link`. */
  predicate LinkExists(links: map<nat, LinkRecord>, link: LinkRecord)
  {
    exists k :: k in links && SamePorts(links[k], link)
  }

  /** No two stored links join the same two ports. */
  predicate NoDuplicateLinks(links: map<nat, LinkRecord>)
  {
    forall a, b :: a in links && b in links && a != b ==> !SamePorts(links[a], links[b])
  }

  /** Every link is stored under its own id. */
  predicate LinksKeyed(links: map<nat, LinkRecord>)
  {
    forall k :: k in links ==> links[k].id == k
  }

  /** The links `add_link` leaves: unchanged when the ports are already joined, else the link stored under its id. */
  function WithLink(links: map<nat, LinkRecord>, link: LinkRecord): map<nat, LinkRecord>
  {
    if LinkExists(links, link) then links else links[link.id := link]
  }

  /** A link touches a node when it starts or ends there (`node_is_linked`). */
  predicate TouchesNode(link: LinkRecord, nodeId: nat)
  {
    link.nodeFrom == nodeId || link.nodeTo == nodeId
  }

  /** A link touches a port when it starts or ends there (`port_is_linked`). */
  predicate TouchesPort(link: LinkRecord, portId: nat)
  {
    link.portFrom == portId || link.portTo == portId
  }

  /** The links that touch none of the given nodes. */
  function LinksAvoiding(links: map<nat, LinkRecord>, nodeIds: set<nat>): map<nat, LinkRecord>
  {
    map k | k in links && !(links[k].nodeFrom in nodeIds || links[k].nodeTo in nodeIds) :: links[k]
  }

  /** `add_link` keeps the link map free of duplicate port pairs and keyed by id. */
  lemma WithLinkKeepsInvariant(links: map<nat, LinkRecord>, link: LinkRecord)
    requires NoDuplicateLinks(links) && LinksKeyed(links)
    ensures NoDuplicateLinks(WithLink(links, link)) && LinksKeyed(WithLink(links, link))
  {
    if !LinkExists(links, link) {
      var r := links[link.id := link];
      forall a, b | a in r && b in r && a != b
        ensures !SamePorts(r[a], r[b])
      {
        if a == link.id {
          assert !SamePorts(links[b], link);
        } else if b == link.id {
          assert !SamePorts(links[a], link);
        }
      }
    }
  }

  /** A refused link leaves the map as it was; an accepted one is found under its id. */
  lemma WithLinkEffect(links: map<nat, LinkRecord>, link: LinkRecord)
    ensures LinkExists(links, link) ==> WithLink(links, link) == links
    ensures !LinkExists(links, link) ==>
      link.id in WithLink(links, link) && WithLink(links, link)[link.id] == link
      && LinkExists(WithLink(links, link), link)
  {
    if !LinkExists(links, link) {
      assert SamePorts(link, link);
    }
  }

  /** Dropping the links of some nodes keeps the link map keyed and free of duplicates. */
  lemma LinksAvoidingKeepsInvariant(links: map<nat, LinkRecord>, nodeIds: set<nat>)
    requires NoDuplicateLinks(links) && LinksKeyed(links)
    ensures NoDuplicateLinks(LinksAvoiding(links, nodeIds)) && LinksKeyed(LinksAvoiding(links, nodeIds))
    ensures forall k :: k in LinksAvoiding(links, nodeIds) ==> k in links && LinksAvoiding(links, nodeIds)[k] == links[k]
  {
  }

  /**
   * The search of `port_connected_to` and `port_link` when the links map is
   * visited in the order `keys`: the first key whose link leaves `portId`.
   */
  function FirstLinkFrom(links: map<nat, LinkRecord>, keys: seq<nat>, portId: nat): (r: Option<nat>)
    requires forall k :: k in keys ==> k in links
    ensures r.Some? ==> r.value in keys && links[r.value].portFrom == portId
    ensures r.None? <==> forall k :: k in keys ==> links[k].portFrom != portId
    ensures r.Some? ==>
      exists i :: 0 <= i < |keys| && keys[i] == r.value && forall j :: 0 <= j < i ==> links[keys[j]].portFrom != portId
  {
    if keys == [] then None
    else if links[keys[0]].portFrom == portId then Some(keys[0])
    else
      var r := FirstLinkFrom(links, keys[1..], portId);
      if r.Some? then
        var rest := keys[1..];
        var i :| 0 <= i < |rest| && rest[i] == r.value && forall j :: 0 <= j < i ==> links[rest[j]].portFrom != portId;
        assert keys[i + 1] == r.value && forall j :: 0 <= j < i + 1 ==> links[keys[j]].portFrom != portId;
        r
      else
        assert forall k :: k in keys ==> k == keys[0] || k in keys[1..];
        r
  }

  /**
   * The search of `port_connected_to` and `port_link`: the key of a link
   * leaving `portId`, the first one met in the map's unspecified order.
   */
  method LinkFrom(links: map<nat, LinkRecord>, portId: nat) returns (r: Option<nat>)
    ensures r.Some? ==> r.value in links && links[r.value].portFrom == portId
    ensures r.None? ==> forall k :: k in links ==> links[k].portFrom != portId
  {
    var pending := links.Keys;
    while pending != {}
      invariant pending <= links.Keys
      invariant forall k :: k in links && k !in pending ==> links[k].portFrom != portId
      decreases pending
    {
      var k :| k in pending;
      if links[k].portFrom == portId {
        return Some(k);
      }
      pending := pending - {k};
    }
    return None;
  }
}
