# GstPipelineStudio core in Dafny

This project models the core of GstPipelineStudio, a GTK application for drawing GStreamer pipelines as graphs, and proves properties of that model.

A pipeline is drawn as a graph:

- **Nodes** are elements. Each node has a port map, per-direction port counters and string properties.
- **Links** join an output port to an input port.
- **The graph view** keeps nodes and links in maps keyed by id. It hands out ids from three monotone counters and links ports by two clicks. It saves and loads the graph as an XML document.

From the graph, a generator writes a `gst-launch-1.0` pipeline description. It walks depth first from every `Source` node:

- Every element is written once.
- An element reached again is written as a `name.` back-reference.
- Hidden properties (names starting with `_`) are never written.

Around this core sit several smaller parts:

- the player state machines: three generations of the source;
- catalog decisions over pad templates: node type, presence mapping, request pads, value text, the search through bins and the URI property choice;
- the tabs of the graph book;
- the favourites of the settings;
- the line-buffering log adapter;
- the engine-log reader of `Logger.cpp`.

Where the source mutates objects in place, the model uses classes with `modifies` frames and proves the methods against value-level definitions. These classes are `Node`, `Port`, `Link`, `GraphView`, `Player`, the pipelines, `GraphTab`, `Graph`, `SettingsStore`, `WriteAdapter` and `GstLog`. The pure logic consists of functions and lemmas:

- parsing and printing of enum names;
- the property batch update;
- the XML load, as a fold over reader events;
- the description pieces;
- the derived orders and sorting;
- the catalog filters.

Modelling conventions:

- The generators read the graph through a value snapshot (`GraphData.GraphValue`). Their specification is a walk over that value, `Launch.Description`, written as functions that follow `process_gst_node` branch for branch and return a sequence of pieces (`Launch.Piece`); the methods that write the description string are proved to write exactly the rendering of those pieces.
- The walk takes the iteration order of the graph's hash maps as a parameter (`GraphXml.DocumentOrder`: the order of the nodes, of the links, and of each node's ports and properties). A map that is not modified iterates in the same order every time, so one order serves the whole run; the generators obtain it from `GraphXml.IterationOrder` and return it beside the description. Where several links leave one output port, `port_connected_to` and `port_link` both return the first in that order, and so does the walk (`GraphData.FirstLinkFrom`).
- The media engine and the plugin registry are parameters, or nondeterministic choices inside methods (`:|`): a pipeline may or may not build, and a state change may or may not be accepted.
- Hash-map iteration order is never fixed. Methods that iterate a map pick the next key nondeterministically, or take an order that lists every key once, and every stated property holds for any order.

Some source functions are plain definitions. They are written as such and used by the contracts below, so they have no row of their own:

- `Property.IsHidden`: a name starting with `_` (`src/graphmanager/property.rs:13-15`).
- `Node.UniqueName`: the name followed by the decimal id (`src/graphmanager/node.rs:244-249`).
- `Node.Node.AllPorts`: the ports facing a direction, or all of them for `All` (`src/graphmanager/node.rs:185-193`). `Node.PortsPartition` states its properties.
- `Node.Node.CanRemovePort`: the port exists and is not `Always` (`src/graphmanager/node.rs:204-212`).
- `GraphView.GraphView.CanRemovePort`: the same question asked of a known node, false for an unknown one (`src/graphmanager/graphview.rs:909-916`).
- `Player.Player.IsPlaying`: `Playing` or `Paused` (`src/gps/player.rs:272-274`).

| Dafny file | models |
|---|---|
| graphview.dfy | `src/graphmanager/graphview.rs`: the `GraphView` class, id counters, nodes, links, click-linking, `render_xml`, the `load_from_xml` loop |
| graph_xml.dfy | the XML document of `graphview.rs` as reader/writer events; the load fold and the save/load round trip |
| graph_data.dfy | value views of nodes, ports, links and the graph; `add_link`/`link_exists` on link maps |
| node.dfy | `src/graphmanager/node.rs` |
| port.dfy | `src/graphmanager/port.rs` |
| property.dfy | `src/graphmanager/property.rs` |
| link.dfy | `src/graphmanager/link.rs` |
| launch.dfy | the pipeline-description syntax shared by the two generators, and the facts about it |
| player.dfy | `src/gps/player.rs` |
| gps_pipeline.dfy | `src/gps/pipeline.rs` |
| studio_pipeline.dfy | `src/pipeline.rs` |
| gps_element.dfy | `src/gps/element.rs` |
| gps_pad.dfy | `src/gps/pad.rs` |
| ordering.dfy | the derived `Ord` of strings, options and records, and `Vec::sort` |
| graph.dfy | `src/graph.rs` |
| graphbook.dfy | `src/graphbook.rs` |
| settings.dfy | `src/settings.rs` |
| logger.dfy | `src/logger.rs` |
| gst_logger.dfy | `src/Logger.cpp` |
| app.dfy | `src/app.rs`: `create_port_with_caps`, `add_new_element` and the property accessors |
| text.dfy | decimal text of integers and the `u32`/`bool` parsing applied to XML attributes |
| wrappers.dfy | `Option` and `Result` |

The source and its description disagree in a few places. The model follows the code, except where a finding is corrected:

- The source files come from different revisions. `link.rs` builds a `Link` from ids, `active` and `selected`, while `graphview.rs` calls a five-argument constructor and uses `link.name()`. `Link.Link` models `link.rs` as written. The graph view's links are `GraphData.LinkRecord` values with the fields `graphview.rs` uses: id, endpoints, name, active and selected.
- `remove_port` in `node.rs` (line 221) and the buffer growth in `Logger.cpp` (lines 195 and 255) are modelled as written and as evidently intended; see "Findings". The rest of the model uses the corrected versions: `GraphView.GraphView.RemovePort` calls the corrected `Node.Node.RemovePort` (see "Left out").
- A last field with no delimiter after it is not returned by `parseGstLine`, because its loop stops at the end of the line before it sees the terminating NUL. `GstLogger.ScanNoDelimiter` states this.

## Model

| member | source | states |
|---|---|---|
| Property.UpdateProperties | src/graphmanager/property.rs:29-38 | the loop over the updates, in any order, yields `Updated`: an empty value removes its key, a non-empty one sets it, every other key keeps its value |
| Property.Lookup | src/graphmanager/property.rs:48-53 | `Some(v)` exactly when the name is stored, with the stored value |
| Property.LookupAfterUpdate | src/graphmanager/property.rs:29-38 | after an update a given key reads back its non-empty value, or is absent when the value was empty |
| Property.UpdateKeepsOthers | src/graphmanager/property.rs:29-38 | keys the update does not mention are untouched |
| Property.UpdateIdempotent | src/graphmanager/property.rs:29-38 | applying the same update twice equals applying it once |
| Property.UpdateFromEmpty | src/graphmanager/property.rs:29-38 | from no properties, an update without empty values yields exactly itself |
| Property.UpdateStoresNoEmpty | src/graphmanager/property.rs:29-38 | an update never stores an empty value |
| Port.DirectionRoundTrip | src/graphmanager/port.rs:31-46 | `from_str` inverts `Display` for every direction |
| Port.DirectionFromStrNames | src/graphmanager/port.rs:38-45 | any text that is not a direction's name parses to `Unknown` |
| Port.PresenceRoundTrip | src/graphmanager/port.rs:58-72 | `from_str` inverts `Display` for every presence |
| Port.PresenceFromStrNames | src/graphmanager/port.rs:65-71 | any text that is not a presence's name parses to `Unknown` |
| Port.Port.constructor | src/graphmanager/port.rs:135-163 | a new port has the given id, name, direction and presence, is unselected and has no properties; id, direction and presence are constants |
| Port.Port.SetName | src/graphmanager/port.rs:181-184 | only the label changes |
| Port.Port.ToggleSelected | src/graphmanager/port.rs:202-204 | the flag flips, so two toggles restore it; name and properties are kept |
| Port.Port.SetSelected | src/graphmanager/port.rs:206-214 | the flag equals the argument; name and properties are kept |
| Port.Port.AddProperty | src/graphmanager/port.rs:225-232 | the key is inserted or overwritten; every other key is kept |
| Port.Port.RemoveProperty | src/graphmanager/port.rs:236-240 | only that key is removed |
| Port.Port.UpdateProperties | src/graphmanager/property.rs:29-38 | the port's properties take the batch update |
| Port.Port.GetProperty | src/graphmanager/property.rs:48-53 | `Some` exactly when the name is stored on the port, carrying the stored value |
| Link.Link.constructor | src/graphmanager/link.rs:40-59 | the given id, endpoints, active and selected flags, with thickness 4 |
| Link.Link.ToggleSelected | src/graphmanager/link.rs:62-65 | the flag flips (two toggles restore it); ids, endpoints, active and thickness are constants |
| Link.Link.SetSelected | src/graphmanager/link.rs:66-72 | the flag equals the argument |
| Node.TypeRoundTrip | src/graphmanager/node.rs:32-47 | `from_str` inverts `Display` for every node type |
| Node.TypeFromStrNames | src/graphmanager/node.rs:39-47 | any text that is not a type's name parses to `Unknown` |
| Node.UniqueNameSeparatesIds | src/graphmanager/node.rs:244-249 | for one name, unique names are equal exactly when the ids are |
| Node.UniqueNameCollision | src/graphmanager/node.rs:244-249 | with no separator, different names can collide: ("a1", 1) and ("a", 11) |
| Node.Node.constructor | src/graphmanager/node.rs:141-152 | a new node has no ports, no properties, zero counters, and is unselected and unlit |
| Node.Node.AddPort | src/graphmanager/node.rs:156-174 | the port is stored under its id; the counter of its side grows by one and the other is kept; a new port keeps the counters equal to the ports held; a port facing neither way is refused as the source panics |
| Node.Node.GetPort | src/graphmanager/node.rs:197-200 | `Some` exactly when the id is stored, with that port |
| Node.Node.RemovePort | src/graphmanager/node.rs:216-226 | corrected: the port goes, its own side's counter falls by one, an absent id changes nothing, and the counters stay equal to the ports held |
| Node.Node.RemovePortAsWritten | src/graphmanager/node.rs:216-226 | as written: removing an output port stores `num_ports_out - 1` into the input counter |
| Node.RemovePortCounterDrift | src/graphmanager/node.rs:221 | a node with one input and one output reports 0 inputs and 1 output after its output is removed with the code as written |
| Node.Node.UnselectAllPorts | src/graphmanager/node.rs:260-265 | every port ends up unselected; names and properties are kept |
| Node.Node.SetLight | src/graphmanager/node.rs:281-289 | only the light flag changes |
| Node.Node.ToggleSelected | src/graphmanager/node.rs:323-325 | the flag flips; ports, properties and counters are kept |
| Node.Node.SetSelected | src/graphmanager/node.rs:327-335 | the flag equals the argument; nothing else changes |
| Node.Node.AddProperty | src/graphmanager/node.rs:346-354 | the key maps to the value; other keys are unchanged |
| Node.Node.RemoveProperty | src/graphmanager/node.rs:358-363 | the key is absent; other keys are unchanged |
| Node.Node.UpdateProperties | src/graphmanager/property.rs:29-38 | the node's properties take the batch update |
| Node.Node.GetProperty | src/graphmanager/property.rs:48-53 | `Some` exactly when the name is stored on the node, carrying the stored value |
| Node.FacingAdd | src/graphmanager/node.rs:156-174 | a new port grows the count of its own side by one and leaves the other |
| Node.FacingRemove | src/graphmanager/node.rs:216-226 | removing a port shrinks the count of its own side by one and leaves the other |
| Node.PortsPartition | src/graphmanager/node.rs:185-193 | `all_ports(All)` is every port; inputs and outputs are disjoint, cover the ports, and their counts add up |
| GraphData.WithLinkKeepsInvariant | src/graphmanager/graphview.rs:965-971 | `add_link` keeps the links keyed by id and free of duplicate port pairs |
| GraphData.WithLinkEffect | src/graphmanager/graphview.rs:1390-1402 | a link whose ports are already joined, in either orientation, leaves the map unchanged; any other is stored under its id |
| GraphData.LinksAvoidingKeepsInvariant | src/graphmanager/graphview.rs:787-799 | dropping the links of some nodes keeps the map keyed and duplicate-free and only removes entries |
| GraphData.LinkFrom | src/graphmanager/graphview.rs:1026-1046 | finds a link leaving the port when one exists, and reports none only when none does |
| GraphData.FirstLinkFrom | src/graphmanager/graphview.rs:1026-1046 | the search of `port_connected_to` and `port_link` in a given order of the links: the first listed link leaving the port, none exactly when no listed link leaves it |
| GraphView.GraphView.constructor | src/graphmanager/graphview.rs:639-650 | an empty graph with id 0, counters at 0 and no remembered port |
| GraphView.GraphView.SetId | src/graphmanager/graphview.rs:654-657 | only the id changes |
| GraphView.GraphView.NextNodeId | src/graphmanager/graphview.rs:1481-1487 | returns one above the counter, which then holds it, so successive ids strictly increase |
| GraphView.GraphView.NextPortId | src/graphmanager/graphview.rs:1489-1495 | the same for port ids |
| GraphView.GraphView.NextLinkId | src/graphmanager/graphview.rs:1497-1503 | the same for link ids |
| GraphView.GraphView.UpdateCurrentNodeId | src/graphmanager/graphview.rs:1433-1438 | the counter becomes the larger of itself and the id; it never falls |
| GraphView.GraphView.UpdateCurrentPortId | src/graphmanager/graphview.rs:1547-1552 | the same for the port counter |
| GraphView.GraphView.UpdateCurrentLinkId | src/graphmanager/graphview.rs:1383-1388 | the same for the link counter |
| GraphView.GraphView.CreateNode | src/graphmanager/graphview.rs:710-713 | a fresh node with the next node id and no ports; the graph is unchanged |
| GraphView.GraphView.CreatePort | src/graphmanager/graphview.rs:884-894 | a fresh port with the next port id; nothing else changes |
| GraphView.GraphView.AddPortToNode | src/graphmanager/graphview.rs:898-904 | the node gains the port under its id, with its side counted |
| GraphView.GraphView.AddNewPorts | src/graphmanager/graphview.rs:725-734 | the loop adds `count` ports with the next ids, the given name and side, all `Always`, keeping the node's earlier ports |
| GraphView.GraphView.AddNewPort | src/graphmanager/graphview.rs:727-733 | one loop pass: the next id holds the new port and the run grows by one |
| GraphView.GraphView.CreateNodeWithPort | src/graphmanager/graphview.rs:717-737 | a fresh node with `input` ports "in" then `output` ports "out", all `Always`, on exactly the next consecutive port ids; the counters match |
| GraphView.GraphView.AddNode | src/graphmanager/graphview.rs:741-783 | the node is stored under its id; links and counters are unchanged |
| GraphView.GraphView.GetNode | src/graphmanager/graphview.rs:820-828 | `Some` exactly when the id is stored |
| GraphView.GraphView.NodeIsLinked | src/graphmanager/graphview.rs:859-867 | some link touching the node, or none only when no link touches it |
| GraphView.GraphView.RemoveNode | src/graphmanager/graphview.rs:787-799 | the node and every link starting or ending at it go; an absent id changes nothing |
| GraphView.RemoveLinksOf | src/graphmanager/graphview.rs:790-795 | the `while let` loop ends with exactly the links avoiding the node |
| GraphView.LinkTouchingNode | src/graphmanager/graphview.rs:859-867 | the search of `node_is_linked`: found exactly when some link touches the node |
| GraphView.LinksAvoidingGrow | src/graphmanager/graphview.rs:845-854 | removing the nodes one by one removes the links of all of them |
| GraphView.GraphView.AllNodes | src/graphmanager/graphview.rs:804-815 | every node of the requested type (all for `All`) appears, once, and nothing else |
| GraphView.GraphView.NodeByUniqueName | src/graphmanager/graphview.rs:833-841 | a node whose unique name matches, or none only when no node's does |
| GraphView.GraphView.RemoveAllNodes | src/graphmanager/graphview.rs:845-854 | no node is left, every link touching a removed node is gone, and the three counters are 0 |
| GraphView.GraphView.PortIsLinked | src/graphmanager/graphview.rs:933-941 | some link touching the port, or none only when no link touches it |
| GraphView.GraphView.RemovePort | src/graphmanager/graphview.rs:920-928 | on a known node, at most one link touching the port goes, then the port; an unknown node changes nothing |
| GraphView.GraphView.RemoveLink | src/graphmanager/graphview.rs:1375-1381 | only that link goes |
| GraphView.GraphView.CreateLink | src/graphmanager/graphview.rs:947-961 | the next link id, unnamed, active and unselected; not stored |
| GraphView.GraphView.LinkExists | src/graphmanager/graphview.rs:1390-1402 | true exactly when a stored link joins the same two ports in either orientation |
| GraphView.GraphView.AddLink | src/graphmanager/graphview.rs:965-971 | stored under its id unless its ports are already joined; the link map stays duplicate-free |
| GraphView.GraphView.SetLinkState | src/graphmanager/graphview.rs:975-983 | only that link's active flag changes; an unknown id changes nothing |
| GraphView.GraphView.SetLinkName | src/graphmanager/graphview.rs:1009-1022 | only that link's name changes; an unknown id changes nothing |
| GraphView.GraphView.GetLink | src/graphmanager/graphview.rs:1002-1005 | `Some` exactly when the id is stored |
| GraphView.GraphView.AllLinks | src/graphmanager/graphview.rs:988-997 | every link with the requested active flag appears, once, and nothing else |
| GraphView.GraphView.PortConnectedTo | src/graphmanager/graphview.rs:1026-1034 | the far port and node of a link leaving the port, or none only when no link leaves it |
| GraphView.GraphView.PortLink | src/graphmanager/graphview.rs:1038-1046 | a link leaving the port, or none only when no link leaves it |
| GraphView.GraphView.SelectedLink | src/graphmanager/graphview.rs:1052-1062 | a selected link, or none only when no link is selected |
| GraphView.GraphView.SelectedNode | src/graphmanager/graphview.rs:1063-1071 | a selected node, or none only when no node is selected |
| GraphView.GraphView.DeleteSelected | src/graphmanager/graphview.rs:1050-1072 | one selected link goes, then one selected node with all its links; with nothing selected nothing goes |
| GraphView.GraphView.UnselectNodes | src/graphmanager/graphview.rs:1425-1431 | every node and every port ends up unselected; nothing else changes |
| GraphView.UnselectNode | src/graphmanager/graphview.rs:1427-1430 | one node and its ports end up unselected |
| GraphView.GraphView.UnselectLinks | src/graphmanager/graphview.rs:1440-1445 | every link ends up unselected, otherwise unchanged |
| GraphView.GraphView.UnselectAll | src/graphmanager/graphview.rs:1447-1451 | nodes, ports and links all end up unselected |
| GraphView.GraphView.SetSelectedPort | src/graphmanager/graphview.rs:1505-1511 | the remembered port becomes the argument; remembering one unselects everything first |
| GraphView.PortsCompatible | src/graphmanager/graphview.rs:1523-1545 | true exactly when a port is remembered and differs from the clicked one in port id, direction and node |
| GraphView.ClickedLink | src/graphmanager/graphview.rs:233-247 | the link goes from the output port of the two to the input port, whichever was clicked first |
| GraphView.GraphView.PressOnPort | src/graphmanager/graphview.rs:202-205 | everything is unselected, then the port ends up selected |
| GraphView.GraphView.PressOnNode | src/graphmanager/graphview.rs:206-209 | everything is unselected, then the node ends up selected |
| GraphView.GraphView.ReleaseOnPort | src/graphmanager/graphview.rs:225-256 | a linked port forgets the remembered port; a free one is remembered when none was; with a compatible remembered port a link from output to input is offered to `add_link`; the remembered port is cleared after the second click |
| GraphView.GraphView.ReleaseElsewhere | src/graphmanager/graphview.rs:258-276 | the remembered port is cleared |
| GraphView.GraphView.RenderXml | src/graphmanager/graphview.rs:1076-1147 | writes exactly the events of the graph's value, for some order of its maps; when the graph is `GraphXml.Saveable` (graph, node, port and link ids within 32 bits; nodes and links keyed by their ids; ports keyed by id and facing `Input` or `Output`; no empty property value; no link selected; no two links joining the same ports) loading them rebuilds it |
| GraphView.GraphView.LoadStartGraph | src/graphmanager/graphview.rs:1174-1184 | the step on the objects equals the `Graph` start step of the fold |
| GraphView.GraphView.LoadStartNode | src/graphmanager/graphview.rs:1185-1217 | the same for the `Node` start tag: a new node becomes the open node |
| GraphView.GraphView.LoadStartPort | src/graphmanager/graphview.rs:1232-1252 | the same for the `Port` start tag |
| GraphView.GraphView.LoadStartLink | src/graphmanager/graphview.rs:1253-1288 | the same for the `Link` start tag |
| GraphView.GraphView.LoadStartProperty | src/graphmanager/graphview.rs:1218-1231 | the same for `Property`: it joins the open port's properties, else the open node's |
| GraphView.GraphView.LoadEndNode | src/graphmanager/graphview.rs:1297-1312 | the same for the `Node` end tag |
| GraphView.GraphView.LoadAddNode | src/graphmanager/graphview.rs:1298-1309 | the open node takes its gathered properties and joins the graph, and the node counter covers it |
| GraphView.GraphView.LoadEndPort | src/graphmanager/graphview.rs:1314-1325 | the same for the `Port` end tag |
| GraphView.GraphView.LoadAttachPort | src/graphmanager/graphview.rs:1315-1321 | the open port takes its gathered properties and joins the open node, and the port counter covers it |
| GraphView.GraphView.LoadEndLink | src/graphmanager/graphview.rs:1327-1334 | the same for the `Link` end tag: the link is offered to `add_link` |
| GraphView.GraphView.LoadStartElement | src/graphmanager/graphview.rs:1163-1290 | any start tag: the objects follow the fold's step |
| GraphView.GraphView.LoadStartInner | src/graphmanager/graphview.rs:1218-1289 | start tags of nested elements and unknown names follow the fold's step |
| GraphView.GraphView.LoadEndElement | src/graphmanager/graphview.rs:1291-1337 | any end tag follows the fold's step |
| GraphView.GraphView.LoadStep | src/graphmanager/graphview.rs:1161-1343 | any event, reader errors included, follows the fold's step |
| GraphView.GraphView.LoadFromXml | src/graphmanager/graphview.rs:1151-1346 | after the clear, the graph, counters and outcome are those of `GraphXml.Fold` over the events; the remembered port is untouched |
| GraphView.AttachPort | src/graphmanager/graphview.rs:1317-1319 | the node's value gains exactly the port with its gathered properties |
| GraphView.NewNode | src/graphmanager/graphview.rs:1350-1352 | a fresh node with no ports or properties and the given light |
| GraphXml.StartGraph | src/graphmanager/graphview.rs:1174-1184 | the `Graph` start tag stores no node or link and moves no counter |
| GraphXml.StartNode | src/graphmanager/graphview.rs:1185-1217 | a `Node` start stores no node or link and moves no counter; the node it opens has no ports yet |
| GraphXml.StartProperty | src/graphmanager/graphview.rs:1218-1231 | a `Property` stores no node or link and moves no counter |
| GraphXml.StartPort | src/graphmanager/graphview.rs:1232-1252 | a `Port` start stores no node or link and moves no counter |
| GraphXml.StartLink | src/graphmanager/graphview.rs:1253-1288 | a `Link` start stores no node or link and moves no counter |
| GraphXml.FoldAppend | src/graphmanager/graphview.rs:1161-1343 | reading a document in two pieces is reading it whole |
| GraphXml.FoldAfterEnd | src/graphmanager/graphview.rs:1338-1341 | after a reader error (or a panic) later events change nothing |
| GraphXml.FoldKeepsCountersCover | src/graphmanager/graphview.rs:1161-1343 | after loading, every node, port and link id is at or below its counter, so later `next_*_id` ids are new |
| GraphXml.ReadProperty | src/graphmanager/graphview.rs:1218-1231 | a property element files its entry under the open port, else the open node |
| GraphXml.FoldPropertyEvents | src/graphmanager/graphview.rs:1218-1231 | a run of property elements adds them all to the open port, else to the open node |
| GraphXml.FoldPortEvents | src/graphmanager/graphview.rs:1232-1252 | reading one written port adds it, with its properties, to the open node |
| GraphXml.FoldPortsEvents | src/graphmanager/graphview.rs:1232-1252 | reading the written ports adds them all to the open node |
| GraphXml.FoldNodeEvents | src/graphmanager/graphview.rs:1185-1217 | reading one written node stores it with its ports and properties and leaves nothing open |
| GraphXml.FoldNodesEvents | src/graphmanager/graphview.rs:1297-1312 | reading the written nodes stores exactly them |
| GraphXml.LinkAttributesRead | src/graphmanager/graphview.rs:1270-1285 | every attribute a written link carries reads back to its value |
| GraphXml.FoldLinksEvents | src/graphmanager/graphview.rs:1327-1334 | reading the written links stores exactly them when none duplicates a port pair |
| GraphXml.ReadBody | src/graphmanager/graphview.rs:1092-1144 | reading the written nodes and then the written links rebuilds the graph's nodes and links |
| GraphXml.ReadDocument | src/graphmanager/graphview.rs:1084-1145 | reading a whole written document rebuilds the graph and leaves nothing open |
| GraphXml.RenderLoadRoundTrip | src/graphmanager/graphview.rs:1076-1346 | for a saveable graph and any visiting order of its maps, loading what `render_xml` writes restores the graph (id, every node with name, type, light, ports and properties, every link with endpoints, name and active flag) and reading goes on |
| GraphXml.PortsEventsFrame | src/graphmanager/graphview.rs:1102-1119 | the written ports depend only on the visiting orders of those ports |
| GraphXml.NodesEventsFrame | src/graphmanager/graphview.rs:1092-1130 | the written nodes depend only on the visiting orders of those nodes |
| GraphXml.WriteProperties | src/graphmanager/graphview.rs:1110-1117 | one `Property` element per entry, in some order of the map |
| GraphXml.WritePort | src/graphmanager/graphview.rs:1103-1118 | a `Port` element holding its properties |
| GraphXml.WritePorts | src/graphmanager/graphview.rs:1102-1119 | one `Port` element per port of the node |
| GraphXml.WriteNode | src/graphmanager/graphview.rs:1093-1129 | a `Node` element: its ports, then its properties |
| GraphXml.WriteLinks | src/graphmanager/graphview.rs:1132-1144 | one `Link` element per link |
| GraphXml.WriteNodes | src/graphmanager/graphview.rs:1092-1130 | one `Node` element per node |
| GraphXml.WriteDocument | src/graphmanager/graphview.rs:1076-1147 | the `Graph` element holding every node and then every link, in some order of the maps |
| GraphXml.ListKeys | src/graphmanager/graphview.rs:1092 | an iteration order of a map: every key listed exactly once |
| GraphXml.NodeIterationOrder | src/graphmanager/graphview.rs:1102-1117 | an iteration order of a node's ports, its properties and each port's properties |
| GraphXml.IterationOrder | src/graphmanager/graphview.rs:1092-1144 | an iteration order of every map of the graph: nodes, links and each node's maps |
| Text.NatToString | src/graphmanager/node.rs:247 | decimal digits without leading zeros whose value is the number |
| Text.ParseU32 | src/graphmanager/graphview.rs:1207 | an accepted text is an optional '+' and decimal digits whose value fits 32 bits, and the result is that value |
| Text.ParseU32Accepts | src/graphmanager/graphview.rs:1207 | conversely, every optional '+' followed by digits whose value fits 32 bits is accepted with that value, leading zeros included |
| Text.ParseNatToString | src/graphmanager/graphview.rs:1207 | every value a `u32` holds reads back from its decimal text |
| Text.ParseRejectsWide | src/graphmanager/graphview.rs:1207 | values beyond 32 bits do not read back |
| Text.BoolToString | src/graphmanager/graphview.rs:1092-1101 | a flag is written as non-empty text |
| Text.ParseBool | src/graphmanager/graphview.rs:1215 | accepts exactly "true" and "false" |
| Text.ParseBoolToString | src/graphmanager/graphview.rs:1215 | every flag reads back from its text |
| Launch.RenderAppend | src/gps/player.rs:340-386 | writing two runs of pieces writes their texts one after the other |
| Launch.AfterColon | src/gps/pipeline.rs:277 | a value without ':' is kept whole; otherwise the text after its first ':' |
| Launch.VisitShrinks | src/gps/player.rs:376-382 | visiting an unvisited name shrinks the names left to visit: the recursion ends even on cyclic graphs |
| Launch.VisitIsNew | src/gps/player.rs:342-387 | a visit of a node not visited before writes only new elements |
| Launch.ShownProps | src/gps/pipeline.rs:275-281 | the same keys, each value as written: whole for the player generator, cut after its first ':' for the older one |
| Launch.Visit | src/gps/player.rs:335-387 | the walk of `process_gst_node`: the visited names keep the old ones and gain the node's |
| Launch.Outputs | src/gps/player.rs:362-385 | the walk of the output loop: the visited names only grow |
| Launch.FromPort | src/gps/player.rs:365-384 | the walk from one output port: the visited names only grow |
| Launch.Target | src/gps/player.rs:376-383 | the walk into a link's target: the visited names only grow |
| Launch.Marker | src/gps/player.rs:366-375 | `unique. ! ` exactly when the node has several outputs; otherwise it ends in `! `, preceded by `! name ` exactly for a named link under the player generator; no element and no property |
| Launch.MarkerText | src/gps/player.rs:366-375 | the marker's text: `unique. ! `, else `! name ! ` for a named link (player generator), else `! ` |
| Launch.PropPiecesWritten | src/gps/player.rs:346-351 | over distinct keys, each visible listed property is written once with its shown value, and nothing else |
| Launch.PropPiecesComplete | src/gps/player.rs:346-351 | listing every key of the map writes every visible property exactly once |
| Launch.PortPropPiecesWritten | src/gps/player.rs:355-359 | over distinct keys of a port, each visible property once as `port::name=value`, and nothing else |
| Launch.AllPortPropPiecesWritten | src/gps/player.rs:353-360 | over the node's ports, every visible port property is written, only those, and none twice when port names are distinct |
| Launch.VisitProperties | src/gps/player.rs:342-360 | after the element come the node's visible properties, each once with its shown value (cut after the first ':' by the older generator), then under the player generator every visible port property once; the older generator writes none |
| Launch.VisitText | src/gps/player.rs:342-386 | the text of a visit: `factory name=unique `, the properties, the port properties, then the text of the output loop |
| Launch.FromPortText | src/gps/player.rs:365-384 | for a port a link leaves: the marker's text, then the target's; the visited names are the target's |
| Launch.ReferenceText | src/gps/player.rs:377-378 | a target visited before is written `unique. ` and visits nothing |
| Launch.VisitFacts | src/gps/player.rs:335-387 | a visit writes its own element first, then only elements not visited before, none twice, each a node of the graph, and no hidden property; the visited names grow by exactly those written; the older generator writes no port property and no link name |
| Launch.OutputsFacts | src/gps/player.rs:362-385 | the output loop writes only elements not visited before, none twice, and no hidden property |
| Launch.OutputFacts | src/gps/player.rs:365-384 | one output port writes only elements not visited before |
| Launch.TargetFacts | src/gps/player.rs:376-383 | a link's target writes only elements not visited before |
| Launch.SourcesText | src/gps/player.rs:393-396 | one loop step: the text from a listed node is its visit when it is a `Source`, then that of the rest |
| Launch.SourcesFacts | src/gps/player.rs:389-398 | the loop keeps its account: each source done is written, the visited names are exactly the elements written, each a node, a name repeats only when it is a source reached again from the top, no hidden property |
| Launch.SourcesShape | src/gps/player.rs:389-398 | the loop writes something exactly when a `Source` node is listed; the older generator writes no port property and no link name |
| Launch.DescriptionIsPipeline | src/gps/player.rs:389-398 | for any order of the maps the description is a pipeline of the graph: every `Source` written, every element a node, none twice except a source reached again, no hidden property, empty exactly without sources |
| Launch.FollowedTarget | src/gps/player.rs:365-376 | the node the walk goes on to from a port: a node exactly when the first link leaving the port leads to one |
| Launch.VisitClosed | src/gps/player.rs:364-385 | with distinct unique names, every node a visit adds has the targets of all its linked outputs visited |
| Launch.OutputsClosed | src/gps/player.rs:364-385 | the output loop visits the target of every linked output port |
| Launch.OutputClosed | src/gps/player.rs:365-384 | one linked output port's target ends up visited |
| Launch.TargetClosed | src/gps/player.rs:376-383 | a link's target ends up visited, whether it was before or is now |
| Launch.SourcesClosed | src/gps/player.rs:389-398 | after the loop, the linked outputs of every visited node lead to visited nodes |
| Launch.PathClosed | src/gps/player.rs:364-385 | visited names closed under the links followed hold every node of a path of followed links from one of them |
| Launch.DescriptionReachesAll | src/gps/player.rs:335-398 | with distinct unique names, every node reachable from a `Source` along the links followed is written as an element |
| Player.StateToAppState | src/gps/player.rs:263-270 | each state shows as the application state of the same name, never `Ready` |
| Player.StateToAppStateInjective | src/gps/player.rs:263-270 | different states show differently |
| Player.Player.constructor | src/gps/player.rs:74-84 | stopped, no pipeline, no video sink |
| Player.Player.SetState | src/gps/player.rs:198-217 | without a pipeline the requested state is returned and nothing changes; an accepted change takes the state, and `Stopped`/`Error` reset the video sinks; a refusal changes nothing |
| Player.Player.StartPipeline | src/gps/player.rs:166-196 | builds a new pipeline only from `Stopped` or `Error`, from the generator's description of the graph for some order of its maps, forgetting the video sinks; otherwise only sets the state; on success the state is the requested one and is shown; on failure the state and the status bar are kept, and the pipeline is the old one or the newly built one |
| Player.Player.OnPipelineMessage | src/gps/player.rs:283-313 | end of stream sets `Stopped` and an error `Error` as `set_state` does (shown in the status bar, video sinks forgotten), or nothing without a pipeline; a refusal of the engine panics and changes nothing; a `warning` application message is logged with its text and panics without one; anything else changes nothing |
| Player.Player.OnVideoSinkReady | src/gps/player.rs:124-135 | one more video sink; nothing else changes |
| Player.Player.PipelineElements | src/gps/player.rs:315-331 | a list exactly when playing (`Playing` or `Paused`) |
| Player.WriteNodeProperties | src/gps/player.rs:346-351 | writes exactly the text of `Launch.PropPieces` in the map's order: each visible property once, with its value (`Launch.PropPiecesComplete`) |
| Player.WritePortProperties | src/gps/player.rs:355-359 | writes exactly the text of `Launch.PortPropPieces`: each visible property of the port once (`Launch.PortPropPiecesWritten`) |
| Player.WriteAllPortProperties | src/gps/player.rs:353-360 | writes exactly the text of `Launch.AllPortPropPieces` over the node's ports: every visible port property, only those, none twice (`Launch.AllPortPropPiecesWritten`) |
| Player.ProcessNode | src/gps/player.rs:335-387 | the description grows by exactly the text of `Launch.Visit` for the run's map order, and the visited names become the visit's |
| Player.WriteOutputs | src/gps/player.rs:362-385 | the output loop writes exactly the text of `Launch.Outputs`: each output port in the ports map's order |
| Player.WriteOutput | src/gps/player.rs:365-384 | exactly the text of `Launch.FromPort`: nothing when no link leaves the port, else the marker and then the target |
| Player.WriteTarget | src/gps/player.rs:376-383 | exactly the text of `Launch.Target`: nothing for a missing node, `unique. ` for a visited one, else its visit |
| Player.PipelineDescription | src/gps/player.rs:389-398 | for the order of the graph's maps the run uses, exactly the text of `Launch.Description`, a pipeline of the graph (`Launch.DescriptionIsPipeline`) holding every node linked from a source (`Launch.DescriptionReachesAll`) |
| GpsPipeline.EngineTarget | src/gps/pipeline.rs:161-179 | `Null` exactly for `Stopped` and `Error`; never `Ready` |
| GpsPipeline.Pipeline.constructor | src/gps/pipeline.rs:79-92 | stopped, no pipeline |
| GpsPipeline.Pipeline.SetState | src/gps/pipeline.rs:161-179 | the state changes only with a pipeline whose engine accepts; the requested state is returned then |
| GpsPipeline.Pipeline.StartPipeline | src/gps/pipeline.rs:128-159 | a pipeline is built only from `Stopped` or `Error`, from the generator's description of the graph for some order of its maps, and asked for `Ready` before the target state; on success the state is the requested one and is shown; on failure the state and the status bar are kept, and the pipeline is the old one or the newly built one |
| GpsPipeline.Pipeline.OnPipelineMessage | src/gps/pipeline.rs:238-262 | an error message asks the engine for `Null` and, when accepted, sets and shows `Error`, or does nothing without a pipeline; a refusal panics and changes nothing else; a `warning` application message is logged with its text and panics without one; end of stream and anything else change nothing |
| GpsPipeline.WriteNodeValues | src/gps/pipeline.rs:275-281 | writes exactly the text of `Launch.PropPieces` with each value cut after its first ':': each visible property once |
| GpsPipeline.ProcessNode | src/gps/pipeline.rs:265-303 | the description grows by exactly the text of `Launch.Visit` for the older generator: no port properties and no link names |
| GpsPipeline.WriteOutputs | src/gps/pipeline.rs:283-301 | the output loop writes exactly the text of `Launch.Outputs` for the older generator |
| GpsPipeline.WriteOutput | src/gps/pipeline.rs:285-300 | exactly the text of `Launch.FromPort`: nothing for an unlinked port, else `unique. ! ` or `! `, then nothing for a missing node, `unique. ` for a visited one, else its visit |
| GpsPipeline.RenderGstLaunch | src/gps/pipeline.rs:305-314 | for the order of the graph's maps the run uses, exactly the text of `Launch.Description` for the older generator: a pipeline of the graph in the older syntax, holding every node linked from a source |
| StudioPipeline.DefaultInfo | src/pipeline.rs:36-44 | no names, rank -1 |
| StudioPipeline.InfoLeTotalOrder | src/pipeline.rs:197 | the derived order of element infos is total |
| StudioPipeline.CollectedNamed | src/pipeline.rs:178-199 | every listed element has both names and rank -1 |
| StudioPipeline.ElementsList | src/pipeline.rs:178-199 | the list is sorted by the derived order and is a permutation of the collected entries |
| StudioPipeline.AddPluginInfos | src/pipeline.rs:183-195 | one plugin's element factories are appended in order |
| StudioPipeline.SortedInfos | src/pipeline.rs:197 | the sorted list is ordered and holds the collected entries |
| StudioPipeline.Pads | src/pipeline.rs:269-293 | counts the kept templates: `Src` as outputs, `Sink` as inputs |
| StudioPipeline.ElementType | src/pipeline.rs:295-309 | `Transform` with inputs and outputs, `Sink` with inputs only, `Source` otherwise |
| StudioPipeline.CountsMatchPadLists | src/pipeline.rs:269-309 | the counts give the same node type as the newer catalog's pad lists |
| StudioPipeline.EngineTarget | src/pipeline.rs:127-140 | `Null` exactly for `Stopped` |
| StudioPipeline.Pipeline.constructor | src/pipeline.rs:88-97 | stopped, no pipeline |
| StudioPipeline.Pipeline.CreatePipeline | src/pipeline.rs:99-125 | a description parsed into a pipeline whose bus is watched is installed; a parse or watch error is returned, and a parse result that is not a pipeline or has no bus panics; the old pipeline is kept unless installed |
| StudioPipeline.Pipeline.SetState | src/pipeline.rs:127-140 | without a pipeline: success and no change; with one, an accepted change takes the state |
| StudioPipeline.SetStateWithoutPipeline | src/pipeline.rs:127-140 | any run of state requests without a pipeline succeeds every time and leaves the state `Stopped` |
| Ordering.StrLeLaws | src/gps/element.rs:45-46 | the derived order of strings is total, antisymmetric and transitive |
| Ordering.OptStrLeLaws | src/gps/element.rs:45-46 | the derived order of optional strings is a total order |
| Ordering.SortCorrect | src/gps/element.rs:45-46 | `Sort` yields an ordered permutation |
| Ordering.SortedUnique | src/gps/element.rs:45-46 | under a total order there is one sorted permutation, so any sort gives this result |
| GpsElement.InfoLeTotalOrder | src/gps/element.rs:45-46 | the derived order of element infos is total |
| GpsElement.ElementsList | src/gps/element.rs:27-47 | every element factory of every plugin, with the default rank, sorted, and a permutation of the collected entries |
| GpsElement.AddPluginInfos | src/gps/element.rs:32-43 | one plugin's element factories are appended in order |
| GpsElement.SortedInfos | src/gps/element.rs:45-46 | the sorted list is ordered and holds the collected entries |
| GpsElement.CollectedRanks | src/gps/element.rs:27-47 | every listed element keeps the default rank 0 |
| GpsElement.ElementType | src/gps/element.rs:142-156 | `Transform` with inputs and outputs, `Sink` with inputs only, `Source` otherwise |
| GpsElement.CatalogTypeSource | src/gps/element.rs:142-156 | a factory is a source exactly when it has no sink template of a presence the filter keeps |
| GpsElement.FirstSometimes | src/gps/element.rs:313-324 | the first `Sometimes` entry; none exactly when there is none |
| GpsElement.SupportsNewPadRequest | src/gps/element.rs:306-327 | the first `Sometimes` pad of the asked side; none for any other direction |
| GpsElement.RequestablePad | src/gps/element.rs:306-327 | a pad can be requested on a side exactly when a sometimes or request template faces it |
| GpsElement.FlagsOrCovers | src/gps/element.rs:166-173 | the OR of the set flags holds each of them |
| GpsElement.FlagsOrLeast | src/gps/element.rs:166-173 | the OR holds nothing beyond the flags |
| GpsElement.CommaToDot | src/gps/element.rs:167-174 | each ',' becomes '.', every other character is kept |
| GpsElement.LowerChar | src/gps/element.rs:175-183 | an ASCII upper-case letter becomes its lower-case letter; any other character is kept |
| GpsElement.Lower | src/gps/element.rs:175-183 | each character lowered as `LowerChar` does; no upper-case letter is left |
| GpsElement.LowerIdempotent | src/gps/element.rs:179-181 | lowering twice changes nothing more |
| GpsElement.ElementProperty | src/gps/element.rs:158-184 | an enum gives its nick; flags the decimal text (`Text.NatToString`) of their OR; a float its text with each ',' made '.'; anything else its value lowered character by character, or nothing without one |
| GpsElement.FoundIsMatchingLeaves | src/gps/element.rs:329-354 | the search returns exactly the reachable non-bin elements whose factory matches, in order; bins are never returned |
| GpsElement.FoundAll | src/gps/element.rs:329-354 | with an empty name every reachable non-bin element is returned |
| GpsElement.SearchForElement | src/gps/element.rs:329-354 | the loop returns the recursive search's result; each element returned matches |
| GpsElement.UriSrcHandler | src/gps/element.rs:247-275 | exactly bins and source elements with a `uri` or `location` property answer, `uri` preferred; a file chooser fits when the handler accepts `file` or `pushfile` |
| GpsElement.UriSinkHandler | src/gps/element.rs:277-304 | the same choice for sink elements; a file chooser fits when the handler accepts `file` |
| GpsElement.UriHandlersExclusive | src/gps/element.rs:247-304 | no element other than a bin is offered as both a URI source and a URI sink |
| GpsPad.DefaultPadInfo | src/gps/pad.rs:26-34 | no names or caps; direction and presence `Unknown` |
| GpsPad.PadToPortPresence | src/gps/pad.rs:41-48 | `Always` exactly from always; `Sometimes` exactly from sometimes or request |
| GpsPad.Pads | src/gps/pad.rs:54-91 | the loop builds the input list from kept `Sink` templates and the output list from kept `Src` templates, in order |
| GpsPad.EntriesShape | src/gps/pad.rs:64-85 | every entry names the element, carries caps and a name, and faces its template's side; without request pads only always-present ones |
| GpsPad.EntriesMembers | src/gps/pad.rs:64-85 | a template yields an entry exactly when it is kept and faces the side |
| GpsPad.EntriesCount | src/gps/pad.rs:64-85 | one entry per kept template |
| GpsPad.EntriesGrowWithRequest | src/gps/pad.rs:64-68 | asking for request pads only adds entries |
| Graph.Graph.constructor | src/graph.rs:15-20 | no elements, column 0 |
| Graph.Graph.AddElement | src/graph.rs:28-30 | appended at the end; earlier elements unchanged |
| Graph.Graph.RemoveElement | src/graph.rs:32-35 | the first element with that name goes; the name must be present as the source unwraps |
| Graph.Position | src/graph.rs:33 | the index of the first element with that name |
| Graph.FirstNamed | src/graph.rs:33 | the first match, or none exactly when no element has the name |
| Graph.WithoutFirstRemovesOne | src/graph.rs:32-35 | the length falls by one and the others are kept, as a multiset |
| Graph.RemoveUndoesAdd | src/graph.rs:28-35 | removing a new name right after adding it restores the list |
| Graph.RemoveTakesEarliest | src/graph.rs:28-35 | with an earlier element of that name, removing takes the earlier one |
| Graphbook.LastSegment | src/graphbook.rs:80-87 | the text after the last '/', without any '/' |
| Graphbook.FileName | src/graphbook.rs:80-87 | a file name is never empty, never contains '/', and is never "." or ".." |
| Graphbook.LastSegmentSuffix | src/graphbook.rs:80-87 | the last segment ends the path, right after a '/' |
| Graphbook.FileNameOfJoin | src/graphbook.rs:80-93 | the file name of `dir/name` and of a bare name is that name |
| Graphbook.GraphTab.constructor | src/graphbook.rs:40-58 | a new tab is undefined, labelled "Untitled*", with a fresh graph view taking the next id |
| Graphbook.GraphTab.Basename | src/graphbook.rs:80-87 | a plain file name |
| Graphbook.GraphTab.SetName | src/graphbook.rs:76-78 | only the label changes |
| Graphbook.GraphTab.SetModified | src/graphbook.rs:99-108 | modified: state `Modified`, label basename + "*"; otherwise `Saved` with the bare basename |
| Graphbook.GraphTab.SetFilename | src/graphbook.rs:89-93 | the path is stored and the tab is saved under its file name |
| Graphbook.NewGraphtabId | src/graphbook.rs:138-146 | one above the largest tab id, 1 for an empty book: above every tab id |
| Graphbook.NewGraphviewId | src/graphbook.rs:127-136 | one above the largest graph view id, 1 for an empty book |
| Graphbook.CreateGraphtab | src/graphbook.rs:186-189 | a new undefined tab stored under the id, named after the file or "Untitled" |
| Settings.DefaultValue | src/settings.rs:19-31 | the derived default: zero sizes, nothing stored |
| Settings.SettingsStore.constructor | src/settings.rs:107-148 | the store starts on the given settings file |
| Settings.SettingsStore.LoadSettings | src/settings.rs:115-148 | the stored value, the default when unreadable, and 800 by 600 with the five pane positions without a file |
| Settings.SettingsStore.SaveSettings | src/settings.rs:107-112 | the file then holds the value |
| Settings.SettingsStore.SetRecentPipelineDescription | src/settings.rs:73-77 | only the recent pipeline changes |
| Settings.SettingsStore.RecentPipelineDescription | src/settings.rs:79-82 | the stored recent pipeline, so it returns what was set |
| Settings.SettingsStore.AddFavorite | src/settings.rs:84-89 | the stored list is sorted and the name appended, even when already present |
| Settings.SettingsStore.RemoveFavorite | src/settings.rs:91-95 | every entry equal to the name goes; the rest stay in order |
| Settings.SettingsStore.FavoritesList | src/settings.rs:97-104 | the stored favourites, in stored order |
| Settings.Retain | src/settings.rs:94 | the `retain` pass keeps exactly the other entries, in order |
| Settings.RetainedCounts | src/settings.rs:91-95 | no copy of the name is left; every other name keeps its count |
| Settings.RetainedIdempotent | src/settings.rs:91-95 | removing twice is removing once |
| Settings.AddThenRemoveFavorite | src/settings.rs:84-95 | adding keeps the earlier favourites sorted and puts the new one last; removing it gives them back without that name |
| Logger.TranslateToSimpleLogger | src/logger.rs:96-104 | never `Off`; one step further along the filter order than the level along its own |
| Logger.TranslationBijective | src/logger.rs:96-104 | one-to-one, order-preserving, onto every filter but `Off` |
| Logger.StepKeepsText | src/logger.rs:79-89 | a write loses and invents nothing; a line is sent exactly when the text ends with a newline; a newline inside the chunk sends nothing |
| Logger.WriteAdapter.constructor | src/logger.rs:116-119 | empty buffer, nothing sent |
| Logger.WriteAdapter.Write | src/logger.rs:79-89 | returns the byte count; the sent lines with their newlines, then the buffer, are everything written |
| Logger.WriteAdapter.Flush | src/logger.rs:91-93 | succeeds and changes nothing |
| GstLogger.ParseGstLine | src/Logger.cpp:170-221 | the loop returns the fields of `Fields`, with the buffer growth corrected |
| GstLogger.ScanShape | src/Logger.cpp:185-217 | entries are non-empty runs without the delimiter; with a limit at most that many plus the rest of the line |
| GstLogger.ScanNoDelimiter | src/Logger.cpp:185-217 | a line without delimiters yields no field |
| GstLogger.ScanSkipsDelimiters | src/Logger.cpp:186-193 | runs of delimiters make no empty fields |
| GstLogger.ScanField | src/Logger.cpp:199-204 | a field followed by a delimiter comes out first |
| GstLogger.FieldWritesAsWritten | src/Logger.cpp:195-212 | as written: the buffer grows once, at 128 stored characters, so a field overflows exactly when it reaches the grown size (256 on a fresh buffer) |
| GstLogger.FieldWrites | src/Logger.cpp:195-212 | corrected: the writes of a field never leave the buffer |
| GstLogger.FieldOverflowExample | src/Logger.cpp:195 | a first field of 256 characters overflows |
| GstLogger.ReadGstLine | src/Logger.cpp:223-263 | the characters before the first newline or end of file, cut at a NUL; nothing for an empty line or a closed file; the newline is consumed; the corrected buffer growth keeps the terminator inside |
| GstLogger.ReadLineOfJoin | src/Logger.cpp:239-257 | reading a line of a file of NUL-free lines gives that line back |
| GstLogger.TerminatorAsWritten | src/Logger.cpp:241-255 | as written: the terminator falls outside the buffer exactly when the length is a multiple of 128 |
| GstLogger.TerminatorOverflowExample | src/Logger.cpp:255 | a line of exactly 128 characters overflows |
| GstLogger.LastOccurrence | src/Logger.cpp:144 | the start of the last occurrence, and none exactly when there is none |
| GstLogger.NextLevel | src/Logger.cpp:111-118 | one more, never past the maximum |
| GstLogger.GstLog.constructor | src/Logger.cpp:35-40 | the level starts at the maximum |
| GstLogger.GstLog.ProcessLog | src/Logger.cpp:120-123 | the line is emitted as an internal message |
| GstLogger.GstLog.IncrementLogLevel | src/Logger.cpp:111-118 | one level up, never past the maximum, and the new level is announced |
| GstLogger.GstLog.ProcessGstLog | src/Logger.cpp:141-166 | a line is emitted exactly when it mentions `WARN` or `ERROR` |
| App.CapsPropertiesHidden | src/app.rs:967-968 | a new port's only property is the hidden `_caps`; nothing of it is shown |
| App.PortNameInjective | src/app.rs:958-966 | port names tell side and count apart |
| App.PortNameDecodes | src/app.rs:958-966 | the count reads back from the digits after the prefix |
| App.FacingIdsCount | src/graphmanager/node.rs:185-193 | as many ids as `all_ports` returns ports |
| App.FacingIdsAdd | src/graphmanager/node.rs:156-174 | a new port joins its own side only |
| App.PadPortNamesDistinct | src/app.rs:885-900 | the ports one loop adds have pairwise different names |
| App.CreatePortWithCaps | src/app.rs:951-975 | the next port id, named `sink_N`/`src_N` with N the node's ports on that side, unselected, holding the hidden caps, added to the node; the node's other ports, properties, selection and light are kept |
| App.AddPadPort | src/app.rs:886-891 | one pad: the next port, with the expected name and caps |
| App.AddPortsForPads | src/app.rs:885-900 | one port per pad, in order, on consecutive ids, named by running count, with the pad's caps |
| App.AddElementNode | src/app.rs:870-885 | a new node without ports, named after the element, added to the view |
| App.AddElementPorts | src/app.rs:885-902 | inputs for the sink pads first, then outputs for the source pads |
| App.AddNewElement | src/app.rs:868-903 | a new unselected, unlit node typed by its pads, then one `Always` input per always-present sink pad and one `Always` output per always-present source pad, inputs first, on consecutive ids; other nodes, links and the remembered port are kept |
| App.PadsHaveCaps | src/gps/pad.rs:70-84 | every pad entry carries caps, so the unwrap in `add_new_element` cannot fail |
| App.UpdateElementProperties | src/app.rs:920-923 | the node's properties take the batch update; its ports, selection, light and port counters are kept |
| App.UpdatePadProperties | src/app.rs:925-933 | the port's properties take the batch update; its name and selection are kept |
| App.ElementProperty | src/app.rs:935-938 | the node's value for the name, exactly when it has one |
| App.PadProperties | src/app.rs:940-949 | exactly the port's visible properties |

## Left out

- GTK rendering, gestures, drag and zoom, positions and sizes, the default node layout in `add_node`, and every signal emission: widget and floating-point geometry. `Graph.Element` carries positions but nothing is computed on them.
- The media engine and the registry. Pipeline building, state changes, bus watches, seeking and queries are nondeterministic outcomes. Plugin lists, pad templates and element trees are parameters. The pipeline-to-graph direction (`graphview_from_pipeline_description` and its helpers) is engine iteration. In `search_for_element` the element tree is a fixed value, so the iterator's `Resync` branch (element.rs:349), which restarts the iteration while keeping the elements already found, has no counterpart.
- The file dialog that `add_new_element` opens for a URI source handler: a GTK callback.
- Byte-level XML, TOML and file I/O. Documents are event sequences and the settings file is a value. Save errors, invalid UTF-8 and XML writer failures are not modelled.
- Hash-map iteration order. It is a nondeterministic choice or a parameter, so no order is fixed.
- Threads, channels and the global logger: `Logger::run`/`Quit`, `createLog`, `init_logger`, `print_log` and the macros.
- Logger.WriteAdapter.Write: a chunk is taken as already decoded text. Invalid UTF-8 and a failing channel send are not modelled.
- GstLogger.ReadGstLine: a 0xFF byte read as end of file, and allocation failures, are not modelled.
- GstLogger.GstLog.IncrementLogLevel: `MAX_LOG_LEVEL` is a constructor parameter because its value is defined outside the core.
- Player.Player.OnVideoSinkReady: the preview widget update is not modelled.
- Player.Player.StartPipeline: three `expect`s are not modelled: on the application handle; on the pipeline's bus (player.rs:179), where a pipeline without a bus panics; and on the `use_gtk4_sink` preference (player.rs:102), where a stored value other than `true` or `false` panics. The rank given to `gtk4paintablesink` by that preference is engine state and is left out too.
- GpsPipeline.Pipeline.StartPipeline: the `expect` on the pipeline's bus (pipeline.rs:141), which panics for a pipeline without a bus, is not modelled; nor is the `expect` on the application handle.
- GraphView.GraphView.NextNodeId: the counters are unbounded. `u32` overflow past 4294967295 is not modelled; the same holds for `NextPortId` and `NextLinkId`.
- GraphView.GraphView.DeleteSelected: which of several selected links or nodes goes depends on hash order. The chosen ids are returned as ghosts and only their selection is stated.
- GraphView.GraphView.AllNodes: the order of the returned nodes is unspecified; only membership and uniqueness are stated. The same holds for `AllLinks`.
- Graphbook.GraphTab.Basename: a path without a file name makes the source panic; the model requires one.
- Graphbook.GraphTab.SetModified: requires the stored path to have a file name, because it calls `basename()` (graphbook.rs:100), which panics otherwise.
- Graphbook.GraphTab.SetFilename: requires the new path to have a file name, because it calls `basename()` (graphbook.rs:91), which panics otherwise.
- GpsElement.ElementProperty: the float text, the enum nick and the flag values are given as values; formatting floats is not modelled.
- GpsElement.Lower: only ASCII letters are lowered; `to_lowercase` also folds other Unicode letters (such as 'É'), which the model leaves unchanged.
- GraphView.GraphView.RemovePort: the view uses the corrected counter update of `Node.Node.RemovePort`, not the one `node.rs:221` has (see "Findings"): removing an output port here lowers the output counter, where the source sets the input counter to one less than the output counter.
- Player.Player.OnPipelineMessage: the three panics (a refused `Stopped` or `Error` at player.rs:290 and 300, a `warning` without `text` at player.rs:306) are returned as the outcome `Aborted` rather than ending the program; the model does not represent that nothing runs after them.
- GpsPipeline.Pipeline.OnPipelineMessage: likewise, the two panics (a refused `Error` at pipeline.rs:249, a `warning` without `text` at pipeline.rs:255) are the outcome `Aborted`.
- StudioPipeline.Pipeline.CreatePipeline: whether the engine's parse result is a pipeline, and whether it has a bus, are nondeterministic; the model does not decide from the description (a single element) when the `expect` panics.
- App.CreatePortWithCaps: requires the node to exist; `app.rs:905-910` panics on an unknown node id, which the model does not represent.
- App.UpdateElementProperties: requires the node to exist; `app.rs:905-910` panics on an unknown node id.
- App.ElementProperty: requires the node to exist; `app.rs:905-910` panics on an unknown node id.
- App.UpdatePadProperties: requires the node and the port to exist; `app.rs:905-918` panics on an unknown node or port id.
- App.PadProperties: requires the node and the port to exist; `app.rs:905-918` panics on an unknown node or port id.
- GraphView.GraphView.LoadStartNode: the `pos_x`/`pos_y` attributes are not read; the `parse::<f32>().unwrap()` panic on a malformed position is not modelled.
- Launch.DescriptionReachesAll: stated only when no two nodes share a unique name; with a collision (`Node.UniqueNameCollision`) a node can be taken for one already written.

## Findings

| source | as written | input that shows it | evidently intended | confidence | as-written member | corrected member |
|---|---|---|---|---|---|---|
| src/graphmanager/node.rs:221 | removing an output port sets `num_ports_in` to `num_ports_out - 1` | a node with one input and one output; remove the output: the counters read 0 in, 1 out | decrement `num_ports_out` | high, not executed | Node.Node.RemovePortAsWritten, Node.RemovePortCounterDrift | Node.Node.RemovePort |
| src/Logger.cpp:195 | the field buffer grows only when `count == MAX_LINE_LENGTH`, not when it reaches the grown size | a line whose first field is 256 characters followed by a delimiter: the terminator goes to index 256 of a 256-byte buffer | compare with `maximumLineLength` | high, not executed | GstLogger.FieldWritesAsWritten, GstLogger.FieldOverflowExample | GstLogger.FieldWrites, GstLogger.ParseGstLine |
| src/Logger.cpp:255 | the terminator is written at `lineBuffer[count]` without a growth check | a line of exactly 128 characters: index 128 of a 128-byte buffer | grow before writing the terminator | high, not executed | GstLogger.TerminatorAsWritten, GstLogger.TerminatorOverflowExample | GstLogger.ReadGstLine |
