# tng-sdk-validation: a verified model of the descriptor store and the staged validator

The 5GTANGO SDK validator checks network-service descriptors (NSDs) and the
network-function descriptors (VNFDs/CNFDs) they aggregate. This project
models its core in Dafny:

- `src/tngsdk/validation/storage.py` is the descriptor store and the
  descriptor objects:
  - a `DescriptorStorage` keeps one package, service or function per
    descriptor id;
  - a `Descriptor` (a `Node`) holds its connection points, its virtual
    links (E-Line, exactly two references) and its virtual bridges (E-LAN
    and E-Tree);
  - a `Service` aggregates stored `Function`s under their `vnf_id`
    aliases, builds its topology graph, loads its forwarding graphs and
    traces their paths;
  - a `Function` holds its VDU or CDU units and builds its own topology
    graph.
  - A connection-point reference is either a plain `cp` of the descriptor
    itself or `alias:cp`. Here `alias` is a unit id inside a function, or a
    `vnf_id` inside a service.
- `src/tngsdk/validation/validator.py` is the `Validator`. It holds its
  configuration, validates functions and services in stages and reports
  every problem found to a process-wide event log:
  - syntax: the schema validator;
  - integrity: loading connection points, units and links, then undeclared
    and unused connection points, unresolved references and duplicate
    ports;
  - topology: loops, isolated functions, connectivity, the tracing of
    every forwarding path, and the cycles of the directed graph between
    functions that the paths induce.

Each core file has two layers in the model:

- Pure modules over value snapshots hold what the source computes. These
  are `Links`, `Units`, `FunctionQueries`, `FunctionGraphs`,
  `ServiceQueries`, `ServiceGraphs`, `ForwardingGraphs`, `Traces`,
  `FwAnalysis`, `FunctionStages`, `ServiceStages` and `Configs`.
- Classes hold what the source updates in place: `Descriptor`, `Function`,
  `Service`, `DescriptorStorage`, `Validator` and `EventLog`. Their methods
  are proved against those snapshots: the new state and the events logged
  are stated as a function of the old state.

Python dictionaries are ordered `Dict`s: a sequence of key/value pairs
with distinct keys, where assigning to an existing key keeps its position.
networkx graphs are a node set plus a symmetric edge set (`Graph`), or
nodes plus edges carrying data (`DiGraph`).

The following are parameters of the model, because they are outside code:

- the schema validator;
- `descriptor_id` and `build_descriptor_id`;
- the search for function descriptors on disk (`list_files` followed by
  `read_descriptor_files`);
- networkx's `simple_cycles`.

A descriptor file is given as already read, or as missing.

## Model

| member | source | states |
|---|---|---|
| Storage.DescriptorStorage.constructor | src/tngsdk/validation/storage.py:48-58 | a new store holds no packages, services or functions and is consistent |
| Storage.DescriptorStorage.CreatePackage | src/tngsdk/validation/storage.py:100-115 | a missing file gives null and changes nothing; otherwise the package already stored under the descriptor's id is returned unchanged, or a fresh package is stored under that id, so the store keeps one object per id |
| Storage.DescriptorStorage.GetService | src/tngsdk/validation/storage.py:117-126 | the lookup finds a service exactly when its id is a key of the services, and a stored service carries that id and has content |
| Storage.DescriptorStorage.CreateService | src/tngsdk/validation/storage.py:127-145 | a missing file, a file without content or content without an id gives null with the services unchanged; otherwise the stored service with that id is returned and the services unchanged, or a fresh service with that content is stored under the new id |
| Storage.DescriptorStorage.PutService | src/tngsdk/validation/storage.py:144-145 | storing a service with content under its own new id keeps the store consistent and makes the lookup return it |
| Storage.DescriptorStorage.FunctionAsWritten | src/tngsdk/validation/storage.py:147-156 | the lookup as written raises on every id |
| Storage.DescriptorStorage.GetFunction | src/tngsdk/validation/storage.py:147-156 | the intended lookup finds a function exactly when its id is a key of the functions, and a stored function carries that id |
| Storage.DescriptorStorage.FunctionLookupRaises | src/tngsdk/validation/storage.py:153 | for a stored id the intended lookup returns the function while the lookup as written raises a TypeError |
| Storage.DescriptorStorage.CreateFunction | src/tngsdk/validation/storage.py:157-171 | a missing file gives null; otherwise the function already stored under the descriptor's id is returned with the functions unchanged, or a fresh function with that content is stored under the new id |
| Storage.StoredServiceUnderOwnId | src/tngsdk/validation/storage.py:141-145 | a service found under a key of a consistent store has that key as its id, is a service descriptor and has content |
| Storage.StoredFunctionUnderOwnId | src/tngsdk/validation/storage.py:167-171 | a function found under a key of a consistent store has that key as its id and is a function descriptor |
| Descriptors.Descriptor.constructor | src/tngsdk/validation/storage.py:438-457 | a new descriptor has its kind, id and content, no connection points, links or bridges, and is valid |
| Descriptors.Descriptor.AddConnectionPoint | src/tngsdk/validation/storage.py:331-360 | the connection points, verdict and log are those of `Links.AddConnectionPoint` on the old list; links and bridges are untouched |
| Descriptors.Descriptor.AddVLink | src/tngsdk/validation/storage.py:614-651 | the descriptor, verdict and log are those of `Links.AddVLink` on the old state |
| Descriptors.Descriptor.AddVBridge | src/tngsdk/validation/storage.py:574-612 | the descriptor, verdict and log are those of `Links.AddVBridge` on the old state |
| Descriptors.Descriptor.LoadConnectionPoints | src/tngsdk/validation/storage.py:561-572 | without the section it fails and changes nothing; otherwise the connection points, verdict and log are those of `LoadCps` over the section, stopping at the first rejected id |
| Descriptors.Descriptor.LoadVirtualLink | src/tngsdk/validation/storage.py:662-684 | one entry of the section does what `LinkEntry` says: an id-less entry fails, the lower-cased type picks a link, a bridge or nothing |
| Descriptors.Descriptor.LoadVirtualLinks | src/tngsdk/validation/storage.py:653-686 | without the section it fails and changes nothing; otherwise the state, verdict and log are those of `LoadLinks`, which stops at the first refused entry |
| Links.EmptyState | src/tngsdk/validation/storage.py:308-309 | a fresh node has no connection points and a valid state |
| Links.AddConnectionPoint | src/tngsdk/validation/storage.py:331-360 | a connection point is accepted exactly when it is new and has no `:`; accepted, it is appended at the end silently; refused, the list is unchanged and one event is raised against the node, `evt_duplicate_cpoint` for a duplicate |
| Links.LoadCpsOk | src/tngsdk/validation/storage.py:561-572 | loading succeeds exactly when the section's ids are new, pairwise distinct and colon-free, and then appends them in order |
| Links.LoadCpsKeepsDistinct | src/tngsdk/validation/storage.py:331-360 | loading keeps the connection points distinct and colon-free |
| Links.AddVLink | src/tngsdk/validation/storage.py:614-651 | a link is accepted exactly when it has two references, its id is neither a link nor a bridge, and no reference has two `:`; a refusal changes nothing and raises one event; an acceptance raises none and leaves bridges and connection points alone |
| Links.AddVBridge | src/tngsdk/validation/storage.py:574-612 | a bridge is accepted exactly when it has at least one reference, its id is new among links and bridges and no reference has two `:`; a refusal changes nothing and raises one event; an acceptance leaves links and connection points alone |
| Links.AddVLinkShape | src/tngsdk/validation/storage.py:649-650 | an accepted link is appended under its id with its two endpoints, and the state stays valid either way |
| Links.AddVBridgeShape | src/tngsdk/validation/storage.py:610-611 | an accepted bridge is appended under its id with its references, the state stays valid, and a single-reference bridge is accepted |
| Links.Lower | src/tngsdk/validation/storage.py:670 | lower-casing keeps the length and maps exactly the ASCII capitals to their small letters |
| Links.LinkEntry | src/tngsdk/validation/storage.py:662-684 | an entry of another connectivity type, with an id, is skipped: the state is unchanged, it passes, nothing is logged |
| Links.LinkEntryExtends | src/tngsdk/validation/storage.py:662-684 | every entry keeps the state valid and the connection points, and only appends to the links and bridges |
| Links.LoadLinksExtends | src/tngsdk/validation/storage.py:653-686 | a load, failing or not, keeps the state valid and keeps every link and bridge stored before it, and those of the entries before a refused one |
| Links.LoadLinksStored | src/tngsdk/validation/storage.py:653-686 | after a successful load every E-Line entry is a link with its two references and every E-LAN or E-Tree entry a bridge with its references, under its id |
| Links.LinkRefs | src/tngsdk/validation/storage.py:522-527 | two references per link, its endpoints in order |
| Links.LinkRefsMember | src/tngsdk/validation/storage.py:522-527 | a name is among the link references exactly when it is an endpoint of some link |
| Links.BridgeRefsMember | src/tngsdk/validation/storage.py:529-534 | a name is among the bridge references exactly when some bridge lists it |
| Links.UnreferencedMember | src/tngsdk/validation/storage.py:688-699 | the unused list holds exactly the listed connection points that no link or bridge references |
| Links.UnusedConnectionPointsMember | src/tngsdk/validation/storage.py:688-699 | `unused_connection_points` holds exactly the declared connection points that are no link endpoint and no bridge reference |
| Units.Unit.AddPort | src/tngsdk/validation/storage.py:1741-1742 | the port of that connection point becomes the given one, every other port and the unit's id, kind and connection points stay |
| Units.NewUnit | src/tngsdk/validation/storage.py:1668-1694 | a new unit has its id and kind, no connection points and no ports |
| Units.MergeGet | src/tngsdk/validation/storage.py:1708-1739 | after copying parameters into a unit, a key reads as the last value given for it, and any other key as before |
| Units.AssociateUnit | src/tngsdk/validation/storage.py:1300-1318 | a unit is associated exactly when its id is not yet associated; it is then appended under its id, otherwise nothing changes; nothing is logged |
| Units.AssociateUnitAsWritten | src/tngsdk/validation/storage.py:1300-1318 | as written the call raises exactly when the id is already associated, and otherwise agrees with the intended association |
| Units.AssociateUnitTwiceRaises | src/tngsdk/validation/storage.py:1309 | associating one unit id twice: the intended version refuses the second time, the written one raises |
| Units.AssociateUnitValid | src/tngsdk/validation/storage.py:1300-1318 | association keeps unit keys equal to unit ids and connection points distinct and colon-free |
| Units.UnitStepShape | src/tngsdk/validation/storage.py:1329-1331 | one entry of a units section passes silently, keeps the earlier units and leaves its id associated |
| Units.RunUnitsShape | src/tngsdk/validation/storage.py:1328-1362 | loading a present units section never fails or logs, keeps every earlier unit in front and associates every declared id |
| Units.RunUnitsKept | src/tngsdk/validation/storage.py:1328-1362 | the run succeeds silently, stays valid and keeps the earlier units as a prefix |
| Units.RunUnitsDeclared | src/tngsdk/validation/storage.py:1328-1362 | every declared unit id is associated after the run |
| Units.LoadUnitsShape | src/tngsdk/validation/storage.py:1320-1368 | `load_units` succeeds exactly when a VDU or CDU section is present, logs nothing, keeps the earlier units, and associates every id of the section it used, the VDU one first |
| Units.AddUnitCps | src/tngsdk/validation/storage.py:1400-1402 | adding a unit entry's connection points keeps the unit's id and kind |
| Units.AddUnitCpsDistinct | src/tngsdk/validation/storage.py:1400-1416 | a unit's connection points stay distinct and colon-free |
| Units.AddUnitCpsDeclared | src/tngsdk/validation/storage.py:1400-1416 | every colon-free declared id is a connection point of the unit afterwards, and none is lost |
| Units.UnitCpsStepCases | src/tngsdk/validation/storage.py:1392-1417 | an entry for an unassociated unit fails; one without connection points (for a CDU, an empty list too) fails; otherwise the unit gets them and the step passes |
| Units.UnitCpsStepValid | src/tngsdk/validation/storage.py:1392-1417 | one entry keeps the units valid |
| Units.LoadUnitCpsValid | src/tngsdk/validation/storage.py:1386-1422 | loading unit connection points keeps the units valid |
| Units.LoadUnitsValid | src/tngsdk/validation/storage.py:1320-1368 | loading units keeps the units valid: a new unit has no connection points |
| Functions.Function.ViewKept | src/tngsdk/validation/storage.py:1282-1298 | a function whose object and descriptor did not change has the same value |
| Functions.Function.constructor | src/tngsdk/validation/storage.py:1284-1290 | a new function wraps its descriptor with no units, and is valid when its descriptor is |
| Functions.Function.AssociateUnit | src/tngsdk/validation/storage.py:1300-1318 | the units and the verdict are those of the intended `Units.AssociateUnit` on the old units |
| Functions.Function.LoadUnits | src/tngsdk/validation/storage.py:1320-1368 | the units and the verdict are those of `Units.LoadUnits` on the old units and the content |
| Functions.Function.AddUnitConnectionPoints | src/tngsdk/validation/storage.py:1400-1402 | the unit and the events are those of `Units.AddUnitCps` on the declared entries |
| Functions.Function.LoadOneUnitCps | src/tngsdk/validation/storage.py:1391-1417 | one entry changes the units, the verdict and the log as `UnitCpsEntry` says, whose cases `Units.UnitCpsStepCases` lists |
| Functions.Function.LoadUnitCpsAt | src/tngsdk/validation/storage.py:1391-1417 | entry `i` of the loop extends the run over the entries before it by one step |
| Functions.Function.LoadUnitCpsOf | src/tngsdk/validation/storage.py:1391-1418 | the loop over a section leaves the units, the verdict and the log of running `UnitCpsStep` over it, which stops at the first failing entry |
| Functions.Function.LoadUnitConnectionPoints | src/tngsdk/validation/storage.py:1386-1422 | the units, the verdict and the log are those of `LoadUnitCps` on the old units and the content; it fails without a units section |
| Functions.Function.BuildTopologyGraph | src/tngsdk/validation/storage.py:1521-1645 | the graph built is `FunctionGraph` of the function's current state, whose edges `FunctionGraphs.FunctionGraphEdges` characterises |
| Functions.Function.BuildGraph | src/tngsdk/validation/storage.py:1533-1645 | the four batches of calls build exactly `FunctionGraph` |
| Functions.Function.AddRefNodes | src/tngsdk/validation/storage.py:1544-1569 | every link reference, and with bridges every bridge reference, is added as a node, in order |
| Functions.Function.AddLinkEdges | src/tngsdk/validation/storage.py:1570-1596 | each link adds one edge between its drawn endpoints, in link order |
| Functions.Function.LinkEndpoint | src/tngsdk/validation/storage.py:1573-1593 | at level 0 a `unit:cp` reference that is not a connection point of the function is drawn as its unit; otherwise as itself |
| Functions.Function.BridgeEndpoint | src/tngsdk/validation/storage.py:1638-1642 | at level 0 a bridge reference with a separator is drawn as its unit; otherwise as itself |
| Functions.Function.JoinNames | src/tngsdk/validation/storage.py:1602-1609 | a unit's connection points are joined as `uid:cp`, except those that already hold a separator |
| Functions.Function.AddRow | src/tngsdk/validation/storage.py:1612-1624 | one `u_cp` adds an edge to each other joined name, skipping equal names and, without bridges, bridge references |
| Functions.Function.AddJoins | src/tngsdk/validation/storage.py:1611-1624 | the rows of one unit, in order |
| Functions.Function.AddInnerEdges | src/tngsdk/validation/storage.py:1597-1624 | the inner edges of each unit, in unit order |
| Functions.Function.AddBridge | src/tngsdk/validation/storage.py:1629-1644 | one bridge adds its hub `br-<id>` and an edge from it to every reference |
| Functions.Function.AddBridgeEdges | src/tngsdk/validation/storage.py:1627-1644 | every bridge adds its hub and edges, in bridge order |
| FunctionGraphs.ApplyOp | src/tngsdk/validation/storage.py:1569 | an `add_node` or `add_edge` call keeps an undirected graph valid |
| FunctionGraphs.Apply | src/tngsdk/validation/storage.py:1533-1645 | a sequence of calls keeps an undirected graph valid |
| FunctionGraphs.ApplyEdges | src/tngsdk/validation/storage.py:1596 | an edge is present after the calls exactly when it was before or some `add_edge` joined its ends in either direction |
| FunctionGraphs.ApplyNodes | src/tngsdk/validation/storage.py:1569 | a node is present after the calls exactly when it was before or some call named it |
| FunctionGraphs.JoinCpsMember | src/tngsdk/validation/storage.py:1602-1609 | a joined name is the joined name of one of the unit's connection points |
| FunctionGraphs.NodeOps | src/tngsdk/validation/storage.py:1547-1569 | one `add_node` per reference, in order |
| FunctionGraphs.LinkOps | src/tngsdk/validation/storage.py:1570-1596 | one `add_edge` per link, in link order |
| FunctionGraphs.FunctionGraph | src/tngsdk/validation/storage.py:1521-1645 | the graph `Function.build_topology_graph` returns is a valid undirected graph |
| FunctionGraphs.RowStep | src/tngsdk/validation/storage.py:1612-1624 | the next `v_cp` of a row adds its edge exactly when the rules allow it, and otherwise leaves the graph |
| FunctionGraphs.JoinStep | src/tngsdk/validation/storage.py:1611-1624 | one more `u_cp` adds its whole row |
| FunctionGraphs.InnerStep | src/tngsdk/validation/storage.py:1600-1624 | one more unit adds all its rows |
| FunctionGraphs.HubStep | src/tngsdk/validation/storage.py:1637-1644 | one more reference of a bridge adds the edge from its hub |
| FunctionGraphs.BridgeStep | src/tngsdk/validation/storage.py:1628-1644 | one more bridge adds its hub and its edges |
| FunctionGraphs.FunctionGraphSteps | src/tngsdk/validation/storage.py:1533-1645 | the graph is built batch by batch: reference nodes, link edges, inner edges at level 1 when asked, bridge hubs when bridges are drawn |
| FunctionGraphs.RowOpsMember | src/tngsdk/validation/storage.py:1612-1624 | a row's calls are exactly the edges from its `u_cp` to the earlier names the rules allow |
| FunctionGraphs.JoinOpsMember | src/tngsdk/validation/storage.py:1611-1624 | the first rows' calls are exactly the allowed edges leaving their names |
| FunctionGraphs.UnitOpsMember | src/tngsdk/validation/storage.py:1611-1624 | a unit's inner calls join exactly the pairs of its joined names the rules allow |
| FunctionGraphs.InnerOpsMember | src/tngsdk/validation/storage.py:1600-1624 | the inner calls are exactly those of some unit |
| FunctionGraphs.HubOpsMember | src/tngsdk/validation/storage.py:1629-1644 | a bridge's calls are its hub node and the edges from the hub to its drawn references, and nothing else |
| FunctionGraphs.BridgeOpsMember | src/tngsdk/validation/storage.py:1628-1644 | the bridge calls are exactly the hub nodes and hub edges of some bridge |
| FunctionGraphs.LinkOpsMember | src/tngsdk/validation/storage.py:1570-1596 | the link calls are exactly one edge per link |
| FunctionGraphs.TopologyOpsEdge | src/tngsdk/validation/storage.py:1533-1645 | an `add_edge` is among the builder's calls exactly when the pair is a topology edge: a link, an allowed inner pair, or a hub and a reference |
| FunctionGraphs.FunctionGraphEdges | src/tngsdk/validation/storage.py:1521-1645 | a pair is an edge of the function graph exactly when it is a topology edge in one direction or the other |
| FunctionGraphs.FunctionGraphLinks | src/tngsdk/validation/storage.py:1570-1596 | every link is an edge between its drawn endpoints |
| FunctionGraphs.FunctionGraphInner | src/tngsdk/validation/storage.py:1597-1624 | at level 1 with inner connections, any two joined names of one unit the bridge rule allows are adjacent |
| FunctionGraphs.FunctionGraphBridges | src/tngsdk/validation/storage.py:1627-1644 | with bridges, every bridge hub is joined to every drawn reference |
| FunctionGraphs.FunctionGraphRefs | src/tngsdk/validation/storage.py:1544-1569 | every link reference, and with bridges every bridge reference, is a node |
| FunctionGraphs.FunctionGraphEmpty | src/tngsdk/validation/storage.py:1521-1645 | the level-0 graph with bridges is empty exactly when the function has neither links nor bridges |
| FunctionGraphs.Level0EndsColonFree | src/tngsdk/validation/storage.py:1576-1585 | at level 0 a drawn endpoint never holds a separator |
| FunctionGraphs.FunctionGraphLevel0 | src/tngsdk/validation/storage.py:1576-1644 | at level 0 every endpoint of an edge is a bridge hub or a name without a separator |
| FunctionQueries.UndeclaredOfMember | src/tngsdk/validation/storage.py:1654-1665 | the loop keeps exactly the references that name no declared connection point |
| FunctionQueries.UndeclaredMember | src/tngsdk/validation/storage.py:1647-1666 | the undeclared references are exactly the link and bridge references that are neither a connection point of the function nor `unit:cp` for a connection point of an associated unit |
| FunctionQueries.RefScanDeclared | src/tngsdk/validation/validator.py:1004-1025 | the integrity loop over link references passes without raising exactly when every reference is declared |
| FunctionQueries.RefScanAfterUndeclared | src/tngsdk/validation/validator.py:980-1025 | once the undeclared check found nothing, the loop's unguarded unit lookup can neither fail nor raise |
| FunctionQueries.SameOwner | src/tngsdk/validation/storage.py:1443-1452 | the inner loop keeps only other references with the same owner, and finds one exactly when one exists |
| FunctionQueries.BridgeLoopFrom | src/tngsdk/validation/storage.py:1438-1452 | a reported bridge loop has at least two references, all of the bridge and all with one owner |
| FunctionQueries.BridgeLoopFromSome | src/tngsdk/validation/storage.py:1438-1452 | from reference `i` on, a loop is found exactly when some later reference shares its owner with another one |
| FunctionQueries.BridgeLoopSome | src/tngsdk/validation/storage.py:1437-1452 | a bridge loops exactly when two of its references share an owner |
| FunctionQueries.PutLoopValues | src/tngsdk/validation/storage.py:1434 | storing a loop of at least two references of one owner keeps every report of that shape |
| FunctionQueries.LinkLoopsOfSpec | src/tngsdk/validation/storage.py:1429-1436 | the link part reports an id exactly when it was reported before or names a link whose endpoints share an owner |
| FunctionQueries.LinkLoopsOfValues | src/tngsdk/validation/storage.py:1429-1436 | the link part only adds loops of at least two references of one owner |
| FunctionQueries.BridgeLoopsOfSpec | src/tngsdk/validation/storage.py:1437-1452 | the bridge part reports an id exactly when it was reported before or names a looping bridge |
| FunctionQueries.BridgeLoopsOfValues | src/tngsdk/validation/storage.py:1437-1452 | the bridge part only adds loops of at least two references of one owner |
| FunctionQueries.DetectLoopsSpec | src/tngsdk/validation/storage.py:1423-1453 | `detect_loops` reports an id exactly when it names a link with both ends on one owner or a bridge with two references on one owner, and each report lists at least two references of a single owner |
| FunctionQueries.IsolatedUnitsMember | src/tngsdk/validation/storage.py:1461-1477 | the loop reports exactly the units none of whose connection points is used |
| FunctionQueries.DetectDisconnectedUnitsMember | src/tngsdk/validation/storage.py:1455-1478 | a unit is reported disconnected exactly when it is associated and no link or bridge references any `uid:cp` of it, a unit without connection points included |
| FunctionQueries.UnusedOfUnitMember | src/tngsdk/validation/storage.py:1505-1518 | the unused names of one unit are exactly its `uid:cp` names that nothing references |
| FunctionQueries.UnusedCpsOfMember | src/tngsdk/validation/storage.py:1504-1518 | the loop over units keeps exactly the unreferenced `uid:cp` names |
| FunctionQueries.DetectUnusedCpsUnitsMember | src/tngsdk/validation/storage.py:1498-1519 | the unused unit connection points are exactly the `uid:cp` names of unit connection points that no link or bridge references |
| FunctionQueries.DisconnectedUnitCpsUnused | src/tngsdk/validation/storage.py:1455-1519 | every connection point of a disconnected unit is among the unused ones |
| FunctionQueries.DupScanSpec | src/tngsdk/validation/storage.py:1485-1494 | the checked list holds every port seen; the duplicate list holds exactly the ports seen at least twice, each once |
| FunctionQueries.SearchDuplicatePortsSpec | src/tngsdk/validation/storage.py:1480-1496 | a port is a duplicate exactly when it occurs at least twice among all ports of all cloud-native units, and none is reported twice |
| FunctionQueries.PortsFoldGet | src/tngsdk/validation/storage.py:1376-1383 | after the loop, a port maps to its owners exactly when it is searched and used |
| FunctionQueries.GetUnitsByPortsSpec | src/tngsdk/validation/storage.py:1370-1384 | a searched port maps to the units using it, one entry per connection point that uses it, in dictionary order; an unused or unsearched port is absent |
| FunctionQueries.OwnersOfCount | src/tngsdk/validation/storage.py:1376-1383 | a port has as many owners listed as it has uses |
| FunctionQueries.DuplicatePortsHaveOwners | src/tngsdk/validation/validator.py:1029-1037 | every duplicate port is found again by `get_units_by_ports` with at least two owners |
| FunctionStages.LoadedCps | src/tngsdk/validation/validator.py:943-951 | loading connection points never touches links or bridges, and without the section it fails silently and changes nothing |
| FunctionStages.LoadedLinks | src/tngsdk/validation/validator.py:971-978 | without the `virtual_links` section the load fails silently and changes nothing |
| FunctionStages.LoadedValid | src/tngsdk/validation/validator.py:943-978 | loading either section keeps a valid descriptor state valid, whether the load succeeds or not |
| FunctionStages.IntegrityChecks | src/tngsdk/validation/validator.py:980-1038 | the checks pass exactly when no reference is undeclared and no port is duplicated; undeclared references fail with one event each; otherwise each unused connection point is reported first; duplicated ports end with their event |
| FunctionStages.FunctionIntegrityPassed | src/tngsdk/validation/validator.py:932-1038 | a function passes integrity only with every section present, no undeclared reference and no duplicated port, and then the unguarded loop over link references can neither fail nor raise |
| FunctionStages.FunctionIntegrityValid | src/tngsdk/validation/validator.py:932-1038 | the integrity stage keeps a valid function state valid, wherever it stops |
| FunctionStages.FunctionTopology | src/tngsdk/validation/validator.py:1040-1098 | the topology stage passes exactly when there is no loop and the level-0 graph with bridges has a node; the first event is the isolated-units event exactly when a unit is disconnected; unused unit connection points are always reported |
| FunctionStages.LoopsAndGraph | src/tngsdk/validation/validator.py:1064-1081 | loops, then an empty graph, fail with exactly one event; a pass logs nothing |
| FunctionStages.TopologyIfEnabled | src/tngsdk/validation/validator.py:892-893 | the topology stage never changes the function |
| FunctionStages.FunctionValidationStages | src/tngsdk/validation/validator.py:876-893 | a function is valid exactly when every enabled stage passes on the state the earlier ones left: syntax, then integrity, then topology; a failed syntax check runs nothing else and a failed integrity stage skips topology |
| FunctionStages.FunctionValidationAsWritten | src/tngsdk/validation/validator.py:888-893 | as written, once the function is stored, the validation returns True whatever the stages found |
| FunctionStages.FunctionValidationAsWrittenPasses | src/tngsdk/validation/validator.py:888-889 | with a rejected syntax, the intended validation fails while the code as written logs `evt_vnfd_stx_invalid` and returns True |
| Configs.AssertConfiguration | src/tngsdk/validation/validator.py:206-266 | the validation may go on exactly when the configuration is in order for the scope; then no logged error is fatal; otherwise the last logged error is the fatal one that stopped it |
| Configs.CustomNeverFatal | src/tngsdk/validation/validator.py:236-263 | the custom switch and the rules file never decide whether a validation goes on; a custom check without topology is reported exactly when the scope is known and the stage prerequisites hold |
| Events.Repeat | src/tngsdk/validation/validator.py:983-1001 | one event per item, all with the same source and code |
| Events.EventLog.constructor | src/tngsdk/validation/validator.py:102-103 | a reset event log holds no events |
| Events.EventLog.Log | src/tngsdk/validation/validator.py:883-886 | logging appends exactly one event with the given source and code |
| Events.EventLog.LogIf | src/tngsdk/validation/validator.py:1051-1056 | a guarded log appends the event exactly when the guard holds |
| Events.EventLog.LogEach | src/tngsdk/validation/validator.py:983-989 | a logging loop appends one event per item, in order |
| Events.EventLog.LogAll | src/tngsdk/validation/validator.py:1004-1037 | the events an operation's specification computed are appended in order |
| Refs.Split | src/tngsdk/validation/storage.py:344 | `split(':')` always returns at least one piece |
| Refs.ColonCountZero | src/tngsdk/validation/storage.py:344-345 | a string has no separator exactly when it counts none |
| Refs.SplitLength | src/tngsdk/validation/storage.py:596-598 | `split(':')` returns one more piece than the string has separators, so `len > 2` means more than one separator |
| Refs.SplitHasColon | src/tngsdk/validation/storage.py:344-345 | a reference splits into more than one piece exactly when it holds a separator |
| Refs.SplitPartsColonFree | src/tngsdk/validation/storage.py:1430-1431 | no piece holds the separator |
| Refs.SplitColonFree | src/tngsdk/validation/storage.py:1657 | a colon-free string splits into itself |
| Refs.SplitPrefix | src/tngsdk/validation/storage.py:1656-1664 | splitting `x:y` with a colon-free `x` gives `x` followed by the pieces of `y` |
| Refs.JoinSplit | src/tngsdk/validation/storage.py:1549 | joining the pieces with `:` gives the reference back |
| Refs.SplitJoin | src/tngsdk/validation/storage.py:1549 | colon-free pieces survive a join then a split |
| Refs.SplitCompose | src/tngsdk/validation/storage.py:1465 | `uid + ":" + cp` with colon-free parts splits into exactly those parts, its owner is `uid`, and it is a well-formed reference |
| Descriptors.Descriptor.RefsWellFormed | src/tngsdk/validation/storage.py:596-607 | the reference format loop accepts exactly when no reference holds more than one separator |
| Services.FunctionObjects | src/tngsdk/validation/storage.py:781-787 | the function objects of the functions dictionary, in order |
| Services.ViewsOf | src/tngsdk/validation/storage.py:781-787 | the value of each function under its key, in dictionary order |
| Services.Inputs | src/tngsdk/validation/validator.py:726-727 | the state and descriptor content of each stored function, in order |
| Services.ViewsOfSnoc | src/tngsdk/validation/storage.py:918 | storing a new function appends its value to the functions |
| Services.Service.ValidView | src/tngsdk/validation/storage.py:899-919 | the object invariant gives the value invariant |
| Services.Service.OwnDescriptor | src/tngsdk/validation/storage.py:768-779 | the service's descriptor is none of its functions' descriptors |
| Services.Service.LoadConnectionPoints | src/tngsdk/validation/storage.py:561-572 | the inherited load changes only the service's own descriptor, as `FunctionStages.LoadedCps` says, and leaves its functions alone |
| Services.Service.LoadVirtualLinks | src/tngsdk/validation/storage.py:653-686 | the inherited load changes only the service's own descriptor, as `FunctionStages.LoadedLinks` says |
| Services.Service.ViewValid | src/tngsdk/validation/storage.py:899-919 | the value invariant, with the descriptor kinds, gives the object invariant |
| Services.Service.constructor | src/tngsdk/validation/storage.py:770-779 | a new service wraps its descriptor with no functions, no aliases and no forwarding graphs |
| Services.Service.MappedView | src/tngsdk/validation/storage.py:807-817 | the object lookup `mapped_function` and the value lookup agree, null exactly when the alias or its function is missing |
| Services.Service.AssociateFunction | src/tngsdk/validation/storage.py:899-919 | a function is associated exactly when it is a function whose id is not yet stored; then it is stored under its id and the alias names it; otherwise nothing changes; the invariant holds either way |
| Services.Service.AssociateObject | src/tngsdk/validation/storage.py:899-919 | the same, for a function object, stated on the two dictionaries |
| Services.Service.Store | src/tngsdk/validation/storage.py:918-919 | the success path stores the function under its id, maps the alias to it, and matches the value-level association |
| Services.Service.Associated | src/tngsdk/validation/storage.py:918-919 | storing the function under its id and naming it by the alias is `ServiceQueries.Associate` on the values |
| Services.Service.AssociatedValid | src/tngsdk/validation/storage.py:899-919 | the association keeps the object invariant |
| Services.Service.VnfId | src/tngsdk/validation/storage.py:888-897 | the alias found is `ServiceQueries.VnfId` of the service's value: the first alias naming the function's id |
| Services.Service.LoadPathPoints | src/tngsdk/validation/storage.py:1155-1191 | the position dictionary, the verdict and the log of one path are those of running `FpCpStep` over its points |
| Services.Service.LoadPaths | src/tngsdk/validation/storage.py:1151-1196 | the paths of one graph are those of running `PathStep` over them, each ordered by position |
| Services.Service.LoadGraphs | src/tngsdk/validation/storage.py:1146-1198 | the graphs are those `ForwardingGraphs.LoadForwardingGraphs` appends |
| Services.Service.LoadForwardingGraphs | src/tngsdk/validation/storage.py:1141-1200 | the graphs, the verdict and the log are those of `ForwardingGraphs.LoadForwardingGraphs` on the old graphs |
| Services.Service.BuildTopologyGraph | src/tngsdk/validation/storage.py:921-1139 | the level-1 graph built is `ServiceGraphs.ServiceGraph` of the service's value |
| ServiceQueries.EmptyService | src/tngsdk/validation/storage.py:770-779 | a new service with a valid descriptor state is a valid service |
| ServiceQueries.AliasOfSpec | src/tngsdk/validation/storage.py:894-897 | the scan finds nothing exactly when no alias names the id, and otherwise returns the first alias that does |
| ServiceQueries.MappedFunctionUnknown | src/tngsdk/validation/storage.py:814-816 | an unknown alias maps to nothing |
| ServiceQueries.MappedFunctionKnown | src/tngsdk/validation/storage.py:807-817 | in a valid service a known alias maps to a function, whose id is the one the alias stores |
| ServiceQueries.AssociateSpec | src/tngsdk/validation/storage.py:899-919 | associating a function id already present changes nothing; otherwise the alias maps to the new function, every other alias keeps its function, and the invariant holds |
| ServiceQueries.AssociateValid | src/tngsdk/validation/storage.py:918-919 | associating a new function keeps the service valid |
| ServiceQueries.MappedVnfId | src/tngsdk/validation/storage.py:807-897 | `vnf_id(mapped_function(a))` is `a` again |
| ServiceQueries.VnfIdSpec | src/tngsdk/validation/storage.py:888-897 | `vnf_id` finds nothing exactly when no alias names the function, and a found alias maps back to it |
| ServiceQueries.AssociateOrphans | src/tngsdk/validation/storage.py:919 | re-pointing a used alias leaves its previous function without a `vnf_id` |
| ServiceQueries.IsolatedParts | src/tngsdk/validation/storage.py:849-864 | each alias adds itself to the report exactly when its function is isolated |
| ServiceQueries.IsolatedAt | src/tngsdk/validation/storage.py:849-864 | the `i`-th alias is reported exactly when it is isolated |
| ServiceQueries.DetectIsolatedVnfsMember | src/tngsdk/validation/storage.py:847-865 | an alias is reported isolated exactly when it names a function none of whose `alias:cp` names is a link endpoint or a bridge reference |
| ServiceQueries.UnusedParts | src/tngsdk/validation/storage.py:870-886 | each alias adds the unused `alias:cp` names of its function |
| ServiceQueries.UnusedOfAliasMember | src/tngsdk/validation/storage.py:871-886 | the names one alias adds are exactly its unreferenced `alias:cp` names |
| ServiceQueries.DetectUnusedCpsMember | src/tngsdk/validation/storage.py:867-887 | the unused report holds exactly the unreferenced `alias:cp` names of the aliased functions |
| ServiceQueries.IsolatedVnfCpsUnused | src/tngsdk/validation/storage.py:847-887 | an isolated VNF contributes all of its connection points to the unused report |
| ServiceQueries.FirstLinkLoop | src/tngsdk/validation/storage.py:823-829 | the first link whose two endpoints have the same owner, and none exactly when no link loops |
| ServiceQueries.RepeatedCp | src/tngsdk/validation/storage.py:833-836 | the first service connection point a bridge references more than once, and none exactly when there is none |
| ServiceQueries.ScanBridgeRefs | src/tngsdk/validation/storage.py:837-845 | the pass stops at a `p:p` reference exactly when the bridge holds one; otherwise it collects the references owned by the alias, at least two exactly when two are |
| ServiceQueries.ScanTail | src/tngsdk/validation/storage.py:837-843 | what the pass reports splits between the first reference and the rest |
| ServiceQueries.DetectServiceLoopsSound | src/tngsdk/validation/storage.py:819-846 | every loop `detect_loops` reports is genuine: a looping link, a doubly referenced connection point, a `p:p` reference or at least two references owned by one alias |
| ServiceQueries.DetectServiceLoopsEmpty | src/tngsdk/validation/storage.py:819-846 | `detect_loops` reports nothing exactly when no alias sees a loop, so a service without aliases reports nothing |
| ServiceQueries.BridgesScanSound | src/tngsdk/validation/storage.py:831-845 | the bridge loop only adds genuine loops |
| ServiceQueries.VnfScanSound | src/tngsdk/validation/storage.py:822-845 | the loop over aliases only adds genuine loops |
| ServiceQueries.BridgesScanComplete | src/tngsdk/validation/storage.py:831-845 | the bridge loop reports something exactly when some later bridge loops for the alias |
| ServiceQueries.VnfScanGrows | src/tngsdk/validation/storage.py:822-845 | the loop over aliases never removes a report |
| ServiceQueries.VnfScanQuiet | src/tngsdk/validation/storage.py:822-845 | when no remaining alias sees a loop, the loop adds nothing |
| ServiceQueries.VnfScanFinds | src/tngsdk/validation/storage.py:822-845 | when some remaining alias sees a loop, the report is not empty |
| ServiceQueries.ServiceUndeclaredOfMember | src/tngsdk/validation/storage.py:1270-1277 | the loop keeps exactly the references the corrected test finds undeclared |
| ServiceQueries.ServiceUndeclaredMember | src/tngsdk/validation/storage.py:1262-1279 | a reference is reported exactly when a link or bridge uses it and it is a plain reference that is not a service connection point, or names a mapped function that does not declare its second segment |
| ServiceQueries.UndeclaredOfAsWrittenAgrees | src/tngsdk/validation/storage.py:1270-1277 | the loop as written raises exactly when some reference is a declared plain connection point that is also a mapped alias, and otherwise returns the corrected result |
| ServiceQueries.ServiceUndeclaredAsWrittenAgrees | src/tngsdk/validation/storage.py:1262-1279 | `undeclared_connection_points` as written agrees with the corrected one except that it raises on such a reference |
| ServiceQueries.ServiceUndeclaredRaisesExample | src/tngsdk/validation/storage.py:1274-1276 | a service declaring `x`, aliasing a function as `x` and linking `x` to itself raises `IndexError` as written, while the corrected version reports nothing |
| ServiceQueries.FirstUnresolved | src/tngsdk/validation/validator.py:772-794 | the first link reference that does not resolve, and none exactly when all resolve |
| ServiceQueries.UnresolvedAfterUndeclared | src/tngsdk/validation/validator.py:751-794 | once no undeclared reference was reported, the integrity stage can only fail on `alias:cp` whose alias maps to no function |
| ServiceQueries.CpInFunctionsAsWrittenRaises | src/tngsdk/validation/storage.py:1202-1220 | as written the test raises on every `alias:cp` with a mapped alias, since functions have no `interfaces`, and otherwise answers False like the corrected one |
| ServiceQueries.CpInFunctionsResolved | src/tngsdk/validation/storage.py:1202-1220 | for a two-segment reference the corrected test is exactly the integrity stage's resolution test |
| ServiceGraphs.BaseGraph | src/tngsdk/validation/storage.py:951-1099 | the graph of the service's own references, links and bridges is a valid undirected graph |
| ServiceGraphs.Prefixes | src/tngsdk/validation/storage.py:981-1013 | `prefixes` holds the `vnf_id` of each aggregated function, in order, none for a function no alias names |
| ServiceGraphs.InnerGraph | src/tngsdk/validation/storage.py:988-993 | an aggregated function is given its level-0 graph, with the service's bridges setting and inner connections |
| ServiceGraphs.InnerName | src/tngsdk/validation/storage.py:1118-1130 | the node that stands for interface `alias:x` is `x` when that is a node of the function graph, else the whole reference when that is one |
| ServiceGraphs.Interconnected | src/tngsdk/validation/storage.py:1102-1138 | the inter-connection loops keep the graph valid and add no node |
| ServiceGraphs.ServiceGraph | src/tngsdk/validation/storage.py:921-1139 | the level-1 service graph is a valid undirected graph |
| ServiceGraphs.PairsAddColumn | src/tngsdk/validation/storage.py:1108-1138 | one more `node_v` adds its pair exactly when the pair is inter-linked |
| ServiceGraphs.PairsAddRow | src/tngsdk/validation/storage.py:1103-1138 | one more `node_u` adds the pairs of its row |
| ServiceGraphs.Linked | src/tngsdk/validation/storage.py:1104-1132 | the test the inner loop makes for one pair is exactly `InterLinked` |
| ServiceGraphs.ColumnStep | src/tngsdk/validation/storage.py:1132-1138 | one `node_v` adds the edge exactly when the pair passes |
| ServiceGraphs.RowStep | src/tngsdk/validation/storage.py:1103-1138 | a whole row of pairs extends the graph of the earlier rows |
| ServiceGraphs.NoRowsYet | src/tngsdk/validation/storage.py:1102-1103 | before the first row nothing is added |
| ServiceGraphs.AddInterEdge | src/tngsdk/validation/storage.py:1108-1138 | one `node_v` of the row of `node_u` adds exactly its inter-linked pair |
| ServiceGraphs.AddInterColumns | src/tngsdk/validation/storage.py:1108-1138 | the loop over `node_v` adds exactly the inter-linked pairs of `node_u` |
| ServiceGraphs.AddInterRow | src/tngsdk/validation/storage.py:1103-1138 | one more `node_u` row gives the interconnected graph over one more row |
| ServiceGraphs.AddInterEdges | src/tngsdk/validation/storage.py:1102-1138 | the outer loop gives the interconnected graph over all nodes |
| ServiceGraphs.BuildServiceGraph | src/tngsdk/validation/storage.py:921-1139 | the builder returns exactly `ServiceGraph` |
| ServiceGraphs.PrefixMapped | src/tngsdk/validation/storage.py:1106-1118 | the prefix test passes exactly for aliases that map to a stored function, so `func.graph` is never looked up on a missing function |
| ServiceGraphs.InterLinkedSpec | src/tngsdk/validation/storage.py:1102-1138 | two nodes are inter-connected exactly when they are distinct interfaces of one mapped alias, both stand for nodes of its function graph, and a walk in that graph joins them |
| ServiceGraphs.BaseOpsEdge | src/tngsdk/validation/storage.py:1044-1099 | an `add_edge` of the base graph is exactly a link or a bridge hub and one of its references |
| ServiceGraphs.ServiceGraphEdges | src/tngsdk/validation/storage.py:921-1139 | the edges of the service graph are exactly its links, its bridge hubs with their references and the inter-connections of its nodes, in either direction |
| ServiceGraphs.InterBoth | src/tngsdk/validation/storage.py:1137-1138 | an inter-connection is an edge in either direction |
| ServiceGraphs.ServiceGraphEmpty | src/tngsdk/validation/storage.py:921-1139 | the graph built with bridges is empty exactly when the service has neither links nor bridges |
| Graphs.Graph.AddNode | src/tngsdk/validation/storage.py:979 | `add_node` adds the node, keeps the edges, and is a no-op on a present node |
| Graphs.Graph.AddEdge | src/tngsdk/validation/storage.py:1070 | `add_edge` adds both endpoints as nodes and the edge in both directions |
| Graphs.Graph.Neighbors | src/tngsdk/validation/storage.py:1237-1238 | `neighbors(u)` are exactly the nodes joined to `u` |
| Graphs.AddEdgePresent | src/tngsdk/validation/storage.py:1615-1616 | adding an edge the graph already has changes nothing, so skipping it is the same |
| Graphs.EmptyGraph | src/tngsdk/validation/storage.py:937 | `nx.Graph()` has no nodes and no edges |
| Graphs.Closure | src/tngsdk/validation/storage.py:1132 | the nodes reachable from a set form its least superset closed under one step |
| Graphs.ClosureSound | src/tngsdk/validation/storage.py:1132 | everything the closure adds is reachable by a walk |
| Graphs.ClosedHoldsWalks | src/tngsdk/validation/storage.py:1132 | a set closed under a step holds every walk starting in it |
| Graphs.HasPathIffReachable | src/tngsdk/validation/storage.py:1132 | `nx.has_path` answers exactly whether a walk joins the two nodes |
| Graphs.DiGraph.AddNode | src/tngsdk/validation/validator.py:560-568 | `add_node` on the directed path graph adds the node and keeps the edges |
| Graphs.DiGraph.AddEdge | src/tngsdk/validation/validator.py:580-596 | `add_edge` adds both endpoints and the edge, replacing the data of a present edge only |
| Graphs.EmptyDiGraph | src/tngsdk/validation/validator.py:530 | `nx.DiGraph()` has no nodes and no edges |
| Dicts.IndexOf | src/tngsdk/validation/storage.py:124-126 | a key's position is the first entry holding it, and none exactly when no entry does |
| Dicts.Dict.Keys | src/tngsdk/validation/validator.py:821 | `keys()` lists the keys in insertion order |
| Dicts.Dict.Values | src/tngsdk/validation/storage.py:1195 | `values()` lists the values in insertion order |
| Dicts.Empty | src/tngsdk/validation/storage.py:53-55 | `{}` is a valid dictionary without keys |
| Dicts.HasKeyIffInKeys | src/tngsdk/validation/storage.py:141 | `k in d` agrees with `k in d.keys()` |
| Dicts.GetSomeHasKey | src/tngsdk/validation/storage.py:124-126 | a lookup finds a value exactly for a key of the dictionary |
| Dicts.PutHasKey | src/tngsdk/validation/storage.py:144 | `d[k] = v` adds exactly the key `k` |
| Dicts.GetEntry | src/tngsdk/validation/storage.py:1461 | in a dictionary with distinct keys, each entry is what its key reads |
| Dicts.GetPut | src/tngsdk/validation/storage.py:144 | after `d[k] = v`, `d[k]` is `v` and every other key reads as before |
| Dicts.PutShape | src/tngsdk/validation/storage.py:1191 | `d[k] = v` keeps keys distinct; a new key goes at the end, a present key keeps its place |
| Dicts.PutPut | src/tngsdk/validation/storage.py:1182-1191 | assigning a key twice leaves the second value in the first one's place |
| Folds.RunSnoc | src/tngsdk/validation/storage.py:568-572 | a loop that stops at the first failure: one more entry after a successful prefix is one more step |
| Folds.RunStops | src/tngsdk/validation/storage.py:568-572 | once a prefix has failed, the later entries are never looked at |
| Folds.RunOk | src/tngsdk/validation/storage.py:568-572 | the loop succeeds exactly when every entry is accepted in the state the entries before it left |
| Folds.RunFailure | src/tngsdk/validation/storage.py:568-572 | a failed loop stopped at an entry that was rejected after all entries before it were accepted, with that step's state and events |
| Folds.RunPreserves | src/tngsdk/validation/storage.py:568-572 | an invariant every step keeps holds after the loop |
| Folds.CollectSpec | src/tngsdk/validation/validator.py:726-733 | validating each function in turn keeps the states it reached in order, passes exactly when every function passes, and otherwise stops at the first failing one with `evt_nsd_itg_function_invalid` last |
| Folds.CollectStates | src/tngsdk/validation/validator.py:726-733 | the loop keeps the states of the functions it reached, in order, all of them when it passes |
| Folds.CollectOk | src/tngsdk/validation/validator.py:726-733 | the loop passes exactly when every function validates |
| Folds.CollectFails | src/tngsdk/validation/validator.py:726-733 | a failed loop stopped at the function it reached last, which failed, and logged the given event last |
| Traces.TraceUpTo | src/tngsdk/validation/storage.py:1231-1239 | after `k` hops the partial trace holds one interface and at most one marker per hop |
| Traces.TraceUpToAt | src/tngsdk/validation/storage.py:1232-1239 | in the partial trace `path[x]` is at its position, followed by the marker when its hop is impossible, and otherwise by `path[x+1]` once handled |
| Traces.TracePathAt | src/tngsdk/validation/storage.py:1222-1241 | in the trace of a non-empty path, `path[x]` is followed by `BREAK` exactly when it is not a node or `path[x+1]` is not its neighbour, and otherwise by `path[x+1]` |
| Traces.WithoutBreaks | src/tngsdk/validation/storage.py:1235-1239 | removing the markers leaves no marker |
| Traces.TraceUpToWithoutBreaks | src/tngsdk/validation/storage.py:1232-1239 | removing the markers from the partial trace gives the handled prefix of the path |
| Traces.TracePathWithoutBreaks | src/tngsdk/validation/storage.py:1222-1241 | removing the markers from the trace of a non-empty path gives the path back |
| Traces.PairAt | src/tngsdk/validation/storage.py:1245-1259 | the pair at `2*i` starts at `path[2*i]` and ends at `path[2*i+1]` when there is one |
| Traces.TracePairs | src/tngsdk/validation/storage.py:1243-1260 | one pair per two interfaces, the last possibly open, each pair being `PairAt` with the intended break rule |
| Traces.TracePairsAsWrittenNeverBreaks | src/tngsdk/validation/storage.py:1243-1260 | as written the pairs either raise, exactly when a pair starts at a missing node, or never report a break |
| Traces.PairBreakIsTraceBreak | src/tngsdk/validation/storage.py:1222-1260 | a pair broken under the intended rule is a hop `trace_path` marks too |
| Traces.TracePairsAsWrittenMissesBreak | src/tngsdk/validation/storage.py:1250-1258 | for two unconnected nodes the intended rule reports the pair broken while the code as written does not, and a pair starting at a missing node raises |
| ForwardingGraphs.InsertByPosition | src/tngsdk/validation/storage.py:1192-1193 | inserting into a list ascending by position keeps it ascending and adds exactly the entry |
| ForwardingGraphs.InsertBehind | src/tngsdk/validation/storage.py:1192-1193 | an entry later than the head goes into the tail, keeping the list ascending and a permutation |
| ForwardingGraphs.AscendingCons | src/tngsdk/validation/storage.py:1192-1193 | an entry no later than every entry heads an ascending list |
| ForwardingGraphs.SortByPosition | src/tngsdk/validation/storage.py:1192-1193 | `sorted(path_dict.items(), key=position)` is ascending and a permutation of the items |
| ForwardingGraphs.Seconds | src/tngsdk/validation/storage.py:1195 | `list(d.values())` takes the references in order |
| ForwardingGraphs.OrderedSpec | src/tngsdk/validation/storage.py:1192-1195 | the ordered path has one reference per position of the dictionary, listed by strictly increasing position |
| ForwardingGraphs.SortedFound | src/tngsdk/validation/storage.py:1192-1195 | every sorted entry is the dictionary's entry for its position |
| ForwardingGraphs.SortedStrict | src/tngsdk/validation/storage.py:1192-1195 | sorting a dictionary's entries leaves no position twice |
| ForwardingGraphs.EntriesOnce | src/tngsdk/validation/storage.py:1155 | a dictionary holds each entry at most once |
| ForwardingGraphs.Duplicates | src/tngsdk/validation/storage.py:1182-1190 | the points whose position was already taken are some of the points |
| ForwardingGraphs.RunPathCpsOk | src/tngsdk/validation/storage.py:1156-1181 | loading a path's points succeeds exactly when every reference resolves: a plain one is a service connection point, `alias:cp` names a mapped function declaring `cp` |
| ForwardingGraphs.RunPathCpsGet | src/tngsdk/validation/storage.py:1182-1191 | after loading, each position holds the last reference declared at it, other positions keep what they held |
| ForwardingGraphs.RunPathCpsEvents | src/tngsdk/validation/storage.py:1182-1191 | one duplicate-position warning per point whose position was taken, and every other point adds one position |
| ForwardingGraphs.LoadedPaths | src/tngsdk/validation/storage.py:1151-1196 | one loaded path per declared path, in order |
| ForwardingGraphs.LoadedGraphs | src/tngsdk/validation/storage.py:1146-1198 | one loaded graph per declared graph, in order |
| ForwardingGraphs.PathsResolvedLast | src/tngsdk/validation/storage.py:1151-1196 | a graph resolves exactly when its earlier paths and its last path do |
| ForwardingGraphs.AllResolvedSnoc | src/tngsdk/validation/storage.py:1146-1198 | the graphs resolve exactly when the earlier ones and the last one do |
| ForwardingGraphs.RunPathsOk | src/tngsdk/validation/storage.py:1151-1196 | a graph's paths all load exactly when all their references resolve |
| ForwardingGraphs.RunPathsShape | src/tngsdk/validation/storage.py:1151-1196 | the paths loaded before stay in front; on success the declared paths follow, each loaded on its own |
| ForwardingGraphs.LoadForwardingGraphsOk | src/tngsdk/validation/storage.py:1141-1200 | loading succeeds exactly when every referenced connection point resolves |
| ForwardingGraphs.LoadForwardingGraphsShape | src/tngsdk/validation/storage.py:1141-1200 | the graphs loaded before stay in front; on success the declared graphs follow in order, each loaded on its own |
| ForwardingGraphs.LoadForwardingGraphsFailure | src/tngsdk/validation/storage.py:1141-1200 | a failed load stopped at a graph holding an unresolved reference; the graphs before it were loaded and kept and the partial graph was dropped |
| FwAnalysis.NodeOfSpec | src/tngsdk/validation/validator.py:539-552 | an `alias:cp` point belongs to node `alias` exactly when the alias names a function, and any other point is its own node |
| FwAnalysis.ConvertPathOk | src/tngsdk/validation/validator.py:537-548 | the conversion of a path stops exactly at a point whose function is not found |
| FwAnalysis.VisitCloses | src/tngsdk/validation/validator.py:555-578 | the second point of a pair in another VNF closes the pair with an edge between the two owners carrying the two points |
| FwAnalysis.VisitOpens | src/tngsdk/validation/validator.py:580-593 | the first point of a pair opens it, reporting a disruption when it leaves the previous VNF |
| FwAnalysis.PairedCloses | src/tngsdk/validation/validator.py:555-578 | a point at an odd position closes the pair the point before opened |
| FwAnalysis.PairedOpens | src/tngsdk/validation/validator.py:580-596 | a point at an even position opens a pair |
| FwAnalysis.PairedStep | src/tngsdk/validation/validator.py:537-596 | one more point keeps the conversion equal to the paired reading |
| FwAnalysis.ConvertPathPaired | src/tngsdk/validation/validator.py:531-599 | without a pair inside one VNF, the conversion reads the path as the pairs `(path[2i], path[2i+1])`, each adding the edge between the two owners with the two points, and reports only disruptions between consecutive pairs |
| FwAnalysis.WithinGrows | src/tngsdk/validation/validator.py:537-596 | what holds of the first points still holds with one more |
| FwAnalysis.EdgesStep | src/tngsdk/validation/validator.py:537-596 | one more point keeps the edges and the open pair drawn from points of the path |
| FwAnalysis.ConvertPathEdges | src/tngsdk/validation/validator.py:530-599 | every new edge joins the owners of an earlier and a later point of the path and carries exactly those two points |
| FwAnalysis.OddEvents | src/tngsdk/validation/validator.py:486-496 | a path with an odd number of points is reported once, an even one never |
| FwAnalysis.LongCyclesMember | src/tngsdk/validation/validator.py:604-608 | exactly the cycles longer than two are kept |
| FwAnalysis.SimpleCycleHops | src/tngsdk/validation/validator.py:602-624 | every hop of a simple cycle, the last one back to the start, is an edge, so the internal error is never reached |
| FwAnalysis.HopsLinks | src/tngsdk/validation/validator.py:615-634 | when every hop is an edge, `cycle_path` has one link per hop carrying that edge's data |
| FwAnalysis.CycleLinksSpec | src/tngsdk/validation/validator.py:611-635 | for a simple cycle, `cycle_path` has one link per node, in cycle order, the last back to the first node, each carrying the points of that hop |
| FwAnalysis.CycleEvents | src/tngsdk/validation/validator.py:638-649 | one cycle report per kept cycle |
| FwAnalysis.ConvertPoint | src/tngsdk/validation/validator.py:538-596 | one point changes the conversion state and the log as `ConvEntry` says |
| FwAnalysis.ConvertPath | src/tngsdk/validation/validator.py:531-599 | the loop over one path gives the graph, verdict and log of `ConvertPathSpec` |
| FwAnalysis.ConvertPaths | src/tngsdk/validation/validator.py:530-599 | the loop over a graph's paths gives the directed graph, verdict and log of the run over them, starting from an empty graph |
| FwAnalysis.KeepLongCycles | src/tngsdk/validation/validator.py:604-608 | the filtering loop keeps exactly `LongCycles` |
| FwAnalysis.CyclePath | src/tngsdk/validation/validator.py:615-634 | the loop building one cycle's `cycle_path` gives exactly `CycleLinks` |
| TopologyStage.TopologyChecksOf | src/tngsdk/validation/validator.py:409-459 | isolated VNFs and loops are reported and end the stage, unused connection points are reported, then the level-1 topology graph is checked, with the outcome and events of `TopologyChecks` |
| TopologyStage.GraphChecksOf | src/tngsdk/validation/validator.py:427-459 | the graph part of the stage gives the outcome and events of `GraphChecks` |
| TopologyStage.CheckPath | src/tngsdk/validation/validator.py:486-515 | one path is checked with the outcome and events of `PathCheck` |
| TopologyStage.CheckPaths | src/tngsdk/validation/validator.py:484-515 | the loop over a forwarding graph's paths stops at the first broken one, with the outcome and events of running `PathCheck` over them |
| TopologyStage.CyclePathsOf | src/tngsdk/validation/validator.py:611-635 | the loop over the kept cycles gives `CyclePaths` |
| TopologyStage.AnalyseFwGraph | src/tngsdk/validation/validator.py:482-651 | one forwarding graph is analysed with the outcome, recorded `cycle_path`s and events of `FwGraphEntry` |
| TopologyStage.AnalyseFwGraphs | src/tngsdk/validation/validator.py:479-651 | the loop over the forwarding graphs stops at the first whose analysis ends the stage, with the outcome, cycles and events of running `FwGraphEntry` over them |
| TopologyStage.FwGraphsOf | src/tngsdk/validation/validator.py:462-651 | without a `forwarding_graphs` section the stage passes with a report; otherwise the graphs are loaded and analysed, with the outcome, graphs, cycles and events of `FwGraphsSection` |
| IntegrityStage.FindUnresolved | src/tngsdk/validation/validator.py:772-794 | the loop over the link references returns `FirstUnresolved`, the first one that resolves neither to a service connection point nor to a connection point of the function its alias maps to |
| IntegrityStage.RefChecksOf | src/tngsdk/validation/validator.py:751-794 | undeclared references fail (one event each), unused connection points are reported (one event each) and an unresolved link reference fails, with the outcome and events of `RefChecks` |
| ServiceStages.ServiceChecks | src/tngsdk/validation/validator.py:735-794 | the checks after the functions keep the service's id, functions and function-id map |
| ServiceStages.ChecksFromLinks | src/tngsdk/validation/validator.py:744-794 | the checks from the link load on keep the service's id, functions and function-id map |
| ServiceStages.RefChecks | src/tngsdk/validation/validator.py:751-794 | the reference checks pass exactly when no reference is undeclared and every link reference resolves; undeclared references are reported one event each; otherwise the unused connection points are reported first, one event each, and a failure ends with the undefined-point event |
| ServiceStages.ServiceChecksResolve | src/tngsdk/validation/validator.py:735-794 | after successful loads the checks pass exactly when no reference is undeclared and every link reference resolves (plain to a service point, `alias:cp` to a mapped function declaring `cp`); a resolution failure is an `alias:cp` whose alias maps to no function, reported last |
| ServiceStages.ServiceChecksValid | src/tngsdk/validation/validator.py:735-794 | the checks keep a well-formed service well-formed |
| ServiceStages.NfIds | src/tngsdk/validation/validator.py:824-834 | one id per declared function, in order, built from its vendor, name and version |
| ServiceStages.FoundIdsSpec | src/tngsdk/validation/validator.py:815-834 | the ids are found exactly when every declared id is among the descriptors found, and then each is the id its descriptor declares |
| ServiceStages.FoundIdsSnoc | src/tngsdk/validation/validator.py:815-834 | one more declared function found extends the ids found |
| ServiceStages.FoundIdsStop | src/tngsdk/validation/validator.py:828-834 | one declared function not found leaves the whole search without ids |
| ServiceStages.FunctionsFound | src/tngsdk/validation/validator.py:798-851 | loading the functions succeeds exactly with a search path, a `network_functions` section and every declared id among the descriptors found; only a failure after both are present logs one function-unavailable event |
| ServiceStages.FunctionChecksSpec | src/tngsdk/validation/validator.py:726-733 | the functions are validated in order, each on its own state; the loop passes exactly when every one is valid and otherwise stops at the first invalid one, whose function-invalid event comes last |
| ServiceStages.FunctionChecksSnoc | src/tngsdk/validation/validator.py:726-733 | one more function validated adds its state and its events, followed by the function-invalid event when it fails |
| ServiceStages.RunAdvances | src/tngsdk/validation/validator.py:726-733 | validating the next function, logging its events and storing its new state advances the loop by one step |
| ServiceStages.RunFinished | src/tngsdk/validation/validator.py:726-733 | the loop ends with the whole run, after a failure or after the last function |
| ServiceStages.PathCheck | src/tngsdk/validation/validator.py:486-515 | a path passes exactly when its trace has no break, and an odd number of connection points is reported first |
| ServiceStages.PathsOf | src/tngsdk/validation/validator.py:531-533 | the connection-point list of every path, in order |
| ServiceStages.CyclePaths | src/tngsdk/validation/validator.py:611-635 | one `cycle_path` per kept cycle, in order |
| ServiceStages.FwGraphEntry | src/tngsdk/validation/validator.py:482-651 | a passing analysis of one forwarding graph appends exactly one list of `cycle_path`s to those recorded, and a failing one records nothing |
| ServiceStages.FwGraphEntryAsWrittenRaises | src/tngsdk/validation/validator.py:482-651 | the analysis as written, with `trace_path_pairs` as written and the `evtiddocker` read, raises a NetworkXError exactly when a path has a pair starting at a missing node. It never ends at a broken path: only the internal conversion error ends it without a raise. Where the intended `FwGraphEntry` passes, it raises exactly when that one reports a cycle, and otherwise the two agree |
| ServiceStages.PathCheckAsWrittenAgrees | src/tngsdk/validation/validator.py:486-515 | one path checked as written raises exactly when a pair starts at a missing node, and otherwise passes; where the intended `PathCheck` passes, the two agree |
| ServiceStages.PathChecksAsWrittenAgree | src/tngsdk/validation/validator.py:484-515 | the paths checked in order as written raise exactly when one of them has a pair starting at a missing node, and otherwise all pass; where the intended checks pass, the two agree |
| ServiceStages.CyclesLogged | src/tngsdk/validation/validator.py:638-649 | recorded cycles come with a cycle event |
| ServiceStages.NoCyclesLogged | src/tngsdk/validation/validator.py:484-649 | without recorded cycles no event is a cycle event |
| ServiceStages.PathChecksCodes | src/tngsdk/validation/validator.py:486-515 | checking paths logs only odd-path and invalid-path events |
| ServiceStages.ConvertCodes | src/tngsdk/validation/validator.py:530-599 | converting paths logs only inside-VNF and disrupted-path events |
| ServiceStages.TopologyChecksReport | src/tngsdk/validation/validator.py:409-459 | the checks pass exactly without isolated VNFs or loops and with a non-empty topology graph; when they pass, unused connection points and a disconnected graph are each reported exactly when present |
| ServiceStages.GraphChecks | src/tngsdk/validation/validator.py:427-459 | the graph checks pass exactly on a non-empty graph, and then report unused points and disconnection exactly when present |
| ServiceStages.ServiceTopologyPassed | src/tngsdk/validation/validator.py:403-652 | a service passes topology only without isolated VNFs or loops, with a non-empty graph and, with a `forwarding_graphs` section, every path of every loaded forwarding graph traced without a break and one list of `cycle_path`s per forwarding graph |
| ServiceStages.FwGraphsSectionPassed | src/tngsdk/validation/validator.py:462-651 | a passing forwarding-graph section traced every path without a break and recorded one entry per forwarding graph |
| ServiceStages.AnalysisPassed | src/tngsdk/validation/validator.py:479-651 | a passing analysis checked every path and recorded one entry per forwarding graph |
| Validation.Validator.constructor | src/tngsdk/validation/validator.py:68-110 | a new validator enables every stage but the custom rules, uses the current directory as search path and rules file and the workspace's default extension, and starts with an empty store and an empty event log |
| Validation.Validator.Configure | src/tngsdk/validation/validator.py:160-204 | every setting given replaces the current one and every other setting stays |
| Validation.Validator.ValidateFunction | src/tngsdk/validation/validator.py:853-913 | a file that cannot be read logs the invalid-descriptor event and fails; otherwise the function is stored under its descriptor id, or the one already stored there is taken, and it ends in the state, verdict and events of `FunctionValidation`; the store's invariant holds after and no service changes |
| Validation.Validator.ValidateContent | src/tngsdk/validation/validator.py:881-893 | for a file that was read: the same storing and the same verdict, state and events |
| Validation.Validator.StoreFunction | src/tngsdk/validation/storage.py:157-171 | `create_function` returns the function stored under the descriptor's id: the one already there, or a new one with that content added under that id, every function a service holds staying stored |
| Validation.Validator.StoreNewFunction | src/tngsdk/validation/storage.py:157-171 | for an id not stored yet, a new function holding the content is stored under that id and nothing else changes |
| Validation.Validator.StoreKnownFunction | src/tngsdk/validation/storage.py:147-171 | for an id already stored, the stored function is returned and nothing changes |
| Validation.Validator.ValidateStored | src/tngsdk/validation/validator.py:888-893 | the stages on a stored function give the verdict, state and events of `FunctionValidation`, and only that function and its descriptor change |
| Validation.Validator.FunctionStagesOf | src/tngsdk/validation/validator.py:888-893 | syntax, then integrity, then topology, each when enabled, the first failing one ending the validation with a failure |
| Validation.Validator.PastSyntaxStage | src/tngsdk/validation/validator.py:890-893 | integrity then topology, each when enabled, as `FunctionValidationStages` says |
| Validation.Validator.IntegrityIfEnabledStage | src/tngsdk/validation/validator.py:890-891 | the integrity stage runs only when enabled |
| Validation.Validator.TopologyIfEnabledStage | src/tngsdk/validation/validator.py:892-893 | the topology stage runs only when enabled |
| Validation.Validator.FunctionIntegrityStage | src/tngsdk/validation/validator.py:932-1038 | each load in turn (connection points, units, the units' connection points, links), the first failing one logging its event and ending the stage, then the checks, as `IntegrityChecks` says |
| Validation.Validator.UnitsStage | src/tngsdk/validation/validator.py:950-979 | the rest of the stage once the connection points are loaded |
| Validation.Validator.UnitCpsStage | src/tngsdk/validation/validator.py:960-979 | the rest of the stage once the units are loaded |
| Validation.Validator.LinksStage | src/tngsdk/validation/validator.py:970-979 | the rest of the stage once the units' connection points are loaded |
| Validation.Validator.FunctionChecksStage | src/tngsdk/validation/validator.py:980-1037 | undeclared references, unused connection points, the link-reference scan and duplicate ports give the verdict and events of `IntegrityChecks` |
| Validation.Validator.FunctionTopologyStage | src/tngsdk/validation/validator.py:1040-1098 | the topology stage gives the verdict, state and events of `FunctionTopology` |
| Validation.Validator.TopologyOf | src/tngsdk/validation/validator.py:1040-1098 | loops and disconnected units are reported, then the topology graph is built and checked |
| Validation.Validator.LoopsAndGraphOf | src/tngsdk/validation/validator.py:1050-1098 | the part after the loop detection, as `LoopsAndGraph` says |
| Validation.Validator.LoadServiceFunctions | src/tngsdk/validation/validator.py:798-851 | with a search path and a `network_functions` section, the service ends holding exactly the functions and aliases of the fold `LoadStep` over the declared functions, up to the first one missing, from those stored and held before (`LoadedHeld`); otherwise it is left as it was. The store keeps every function it had and gains only functions the service holds. The verdict and events are those of `FunctionsFound` |
| Validation.Validator.LoadFound | src/tngsdk/validation/validator.py:798-851 | the same functions and aliases held, whether every declared function was found, and whether the missing ones are reported |
| Validation.Validator.AssociateDeclared | src/tngsdk/validation/validator.py:824-848 | the declared functions are handled in order up to the first one not among the descriptors found. The service ends holding exactly the functions and aliases of the fold `LoadStep`, and the load succeeds exactly when every declared id was found. Functions stored before stay as they were, and every new one is held by the service |
| Validation.Validator.StoreAndAssociate | src/tngsdk/validation/validator.py:834-848 | `create_function` on a descriptor found stores a new function under the id its content declares, or takes the one stored there; `associate_function` under the declared `vnf_id` then gives the held functions and aliases that `AssociateHeld` describes |
| ServiceStages.Created | src/tngsdk/validation/storage.py:157-171 | `create_function` gives the function already stored under the id, or a new one with that content and nothing loaded |
| ServiceStages.AssociateHeld | src/tngsdk/validation/storage.py:899-919 | a function id the service already holds leaves its functions and aliases as they were; otherwise the function `create_function` gives is held under its id and the `vnf_id` names it; every held id stays held |
| ServiceStages.LoadSnoc | src/tngsdk/validation/validator.py:834-848 | one more declared function: a missing descriptor ends the load with the functions unchanged; a found one is stored and associated |
| ServiceStages.LoadFunctionsOk | src/tngsdk/validation/validator.py:834-851 | the loop over the declared functions succeeds exactly when every declared id is among the descriptors found, and logs nothing itself |
| ServiceStages.LoadFunctionsHolds | src/tngsdk/validation/validator.py:834-851 | the load keeps every function the service held, with its state and content; after a successful load the service holds every declared function under the id its descriptor declares |
| Validation.Validator.AssociateStored | src/tngsdk/validation/storage.py:899-919 | a function the service already holds under that id is refused and nothing changes; otherwise it joins the service's functions and the alias names it |
| Validation.Validator.ValidateServiceFunctions | src/tngsdk/validation/validator.py:726-733 | each held function is validated in turn, the first invalid one being reported against the service and ending the loop, as `FunctionChecksSpec` describes |
| Validation.Validator.CheckFunctions | src/tngsdk/validation/validator.py:726-733 | the loop over distinct valid functions reaches the whole run of `FunctionChecks` |
| Validation.Validator.StagesAt | src/tngsdk/validation/validator.py:727-733 | the stages on the `i`-th function change only that function, and a failure is reported against the service |
| Validation.Validator.IntegrityTraced | src/tngsdk/validation/validator.py:705-795 | `_validate_service_integrity` on a stored service: a missing function is reported as unavailable and ends the stage with a failure, the service keeping what the load left it: with a search path and a `network_functions` section, the functions and aliases of the fold `LoadStep` up to the first one missing, otherwise those it held before (`LoadedHeld`). Otherwise the service first holds exactly the functions and aliases that the fold `LoadStep` over its `network_functions` gives, starting from the functions stored and held before. Those functions are then validated and the service checked, as `IntegrityOutcome` says |
| Validation.Validator.FoundTraced | src/tngsdk/validation/validator.py:726-795 | once every declared function was found: the held functions are validated, starting from the states and contents the load left, then the service checks run |
| Validation.Validator.ChecksAfter | src/tngsdk/validation/validator.py:735-794 | the service checks once every function passed |
| Validation.Validator.CheckedService | src/tngsdk/validation/validator.py:735-794 | the service checks on a stored service give the verdict, state and events of `ServiceChecks` |
| Validation.Validator.ServiceChecksStage | src/tngsdk/validation/validator.py:735-794 | connection points loaded, then links, each failure logging its event and ending the stage, then the references |
| Validation.Validator.ServiceCpsStage | src/tngsdk/validation/validator.py:735-794 | the same checks on a service whose descriptor is none of its functions' |
| Validation.Validator.AfterCpsStage | src/tngsdk/validation/validator.py:735-750 | a failed load of the connection points is reported; otherwise the links are next |
| Validation.Validator.ServiceLinksStage | src/tngsdk/validation/validator.py:744-794 | the rest of the checks once the connection points are loaded |
| Validation.Validator.LinksVerdict | src/tngsdk/validation/validator.py:744-794 | a failed load of the links is reported; otherwise the references are checked |
| Validation.Validator.ReportUnavailable | src/tngsdk/validation/validator.py:718-723 | a failed load appends one `evt_nsd_itg_function_unavailable` event for the service to the log and fails the stage; the service reads as the state of what it holds (`HeldState`) |
| Validation.Validator.IntegrityThenTopology | src/tngsdk/validation/validator.py:396-401 | the integrity stage, with the functions and aliases the load leaves fixed as `IntegrityOutcome` says, whether the load found every declared function or stopped at a missing one (`LoadedHeld`); then, when it passed and topology is enabled, the topology stage |
| Validation.Validator.TopologyIfPassed | src/tngsdk/validation/validator.py:399-401 | the topology stage runs only when integrity passed and topology is enabled |
| Validation.Validator.TopologyAfter | src/tngsdk/validation/validator.py:399-400 | the topology stage on the stored service |
| Validation.Validator.ServiceTopologyOf | src/tngsdk/validation/validator.py:403-652 | the checks on the service, then its forwarding graphs, with the verdict, graphs, cycles and events of `ServiceTopology` |
| Validation.Validator.ServiceTopologyStage | src/tngsdk/validation/validator.py:403-652 | `_validate_service_topology` gives the verdict, cycles and events of `ServiceTopology` on the service as it is, and the forwarding graphs loaded are stored in the service |
| Validation.Validator.ValidateService | src/tngsdk/validation/validator.py:371-401 | a configuration `_assert_configuration` refuses ends the validation with a failure and nothing in the event log; a file that yields no service is reported and fails; otherwise the service is stored, or the stored one taken, and syntax, integrity and topology run in turn as `ServiceOutcome` says. With a search path and a `network_functions` section, the functions and aliases the integrity stage leaves the service holding are those of the fold `LoadStep`, up to the first function missing, from the store and the service as they were before; otherwise the service keeps those it held (`LoadedHeld`) |
| Validation.Validator.ValidateServiceFile | src/tngsdk/validation/validator.py:384-401 | past an accepted configuration, the same, including what a failed load leaves the service holding (`LoadedHeld`); the load starts from the functions and aliases held by a service already stored under that id, or from none for a new service |
| Validation.Validator.CreateStoredService | src/tngsdk/validation/storage.py:127-145 | `create_service` returns nothing for a file that cannot be read or yields no id; otherwise the service stored under the descriptor's id: the one already there, or a new one with that content holding no functions and no forwarding graphs, added under that id |
| Validation.Validator.ServiceStored | src/tngsdk/validation/storage.py:127-145 | storing a new service holding no functions keeps the store's invariant |
| Validation.Validator.StoredServiceStages | src/tngsdk/validation/validator.py:393-401 | the syntax stage, then the enabled ones among integrity and topology, on the service created, as `ServiceOutcome` says, including the functions and aliases the load leaves the service holding, when it found every declared function and when it stopped at a missing one (`LoadedHeld`) |
| Validation.Validator.SyntaxRejected | src/tngsdk/validation/validator.py:688-702 | a service the schema validator rejects is reported with the invalid-syntax event and is invalid; nothing else is logged |
| Validation.Validator.IntegrityDisabled | src/tngsdk/validation/validator.py:396-401 | past the syntax stage with integrity disabled the service is valid and nothing is logged |
| Validation.Validator.SyntaxPassedStages | src/tngsdk/validation/validator.py:396-401 | past the syntax stage with integrity enabled: integrity, then topology, as `ServiceOutcome` says |

## Left out

- Packages beyond their storage: `Package`, the `test`, `slice`, `SLA` and `runtime-policy` descriptor classes, and `validate_package` / `validate_project`. They are outside the service and function core.
- Custom rules: `validator_custom_rules.process_rules`, the `_customErrors` list and the `custom` stage of `validate_function` are not part of this model. The `custom` setting is kept only for `_assert_configuration`.
- `validate_function` on a directory: it lists files with the workspace extension and validates each one in turn. This is file-system I/O. Each file's validation is `Validation.Validator.ValidateFunction`.
- The VDU image URL probe in `Function.load_units` (storage.py:1333-1349), which the integrity stage calls (validator.py:954), uses the network. It is left out.
- Units.UnitStepShape, Units.RunUnitsShape, Units.RunUnitsKept, Units.LoadUnitsShape, Functions.Function.LoadUnits: loading a VDU section is stated to log nothing. The source reads each VDU's `vm_image`, which raises a KeyError when the key is absent (storage.py:1335). For a URL that `requests.head` cannot reach in time, it logs the non-fatal `evt_vnfd_itg_vdu_image_not_found` against the function id (storage.py:1341-1349). Neither the KeyError nor that event is modelled: the first depends on a key the model's content does not carry, the second on the network.
- File reading, YAML parsing, the workspace, the package signature, the debug and log levels, the general `LOG` messages, and the titles and details of events: these are I/O or text. An event is modelled as its source id and its code.
- Event ids, `uuid` and the `event_id` / `detail_event_id` fields are left out.
- `write_service_graphs` is left out: it writes GraphML files, and it runs on every topology stage that built a non-empty graph (validator.py:449). Its first `build_topology_graph(level=3)` is outside its `try` (validator.py:664). At level 3, `prefix + ':' + node` (storage.py:1034) raises a TypeError when a held function has no `vnf_id`, since `prefix` is then None (storage.py:986). `ServiceQueries.AssociateOrphans` shows that such a function can arise. The model does not capture this raise: its topology stage goes on.
- FunctionStages.PastSyntax: with integrity enabled, syntax disabled and no content, the source raises a TypeError (`'connection_points' not in None`, storage.py:567). The model fails without an event instead. `validate_service` cannot reach this case, because `_assert_configuration` requires the syntax stage.
- The `Validator` class and the `TopologyStage` and `IntegrityStage` methods compose the corrected definitions. The behaviour as written exists only in the `*AsWritten` members listed under "## Findings" and is stated against the corrected one there. In particular, `Validation.Validator.ValidateFunction`, `ValidateStored`, `FunctionStagesOf` and `ValidateServiceFunctions` fail when a stage fails, where `validate_function` returns True (validator.py:888-893). `TopologyStage.CheckPath` and `CheckPaths` use the intended break rule of `trace_path_pairs`, and `TopologyStage.AnalyseFwGraph` does not raise on `evtiddocker`.
- The node and edge attributes of the topology graphs and the order in which nodes are inserted are left out. Every consumer in the core reads node sets, edge sets and neighbours only.
- FunctionGraphs.FunctionGraph, ServiceGraphs.ServiceGraph, FunctionStages.FunctionTopology: the node-label code reads the descriptor's `name` (storage.py:964, 970 and 1562), which raises a KeyError on a descriptor without `name`. `validate_function` does not require the syntax stage, so with syntax off and topology on the topology stage can reach that raise (validator.py:1074). The model's content carries no `name`, and its graphs are always built.
- `Service.build_topology_graph` is modelled at level 1 with bridges, the only level the validator uses. Levels 0, 2 and 3 are left out. So is its side effect of assigning `func.graph`.
- The caller inspection (`inspect.stack`) in `_assert_configuration` is a `Scope` parameter.
- Validation.Validator.IntegrityTraced: does not state what the store holds after the stage. `LoadServiceFunctions` and `LoadFound` prove that the store keeps every function it had and gains only functions the service holds (`create_function`, called at validator.py:847); carrying that clause through the rest of the stage is beyond the proof's resource budget.
- Validation.Validator.IntegrityThenTopology: the same; the store's functions after the integrity stage are not stated.
- Validation.Validator.StoredServiceStages: the same; the store's functions after the stages are not stated.
- Validation.Validator.ValidateServiceFile: the same; only a file that yields no service is stated to leave the store's functions as they were.
- Validation.Validator.ValidateService: the same as `ValidateServiceFile` for an accepted configuration.
- Validation.Validator.ValidateService: the outcome of the stages (`ServiceOutcome`) is stated only for configurations that `_assert_configuration` accepts. A refused configuration is stated to change nothing and log nothing.
- Validation.Validator.ValidateServiceFunctions: the source calls `validate_function(func.filename)` and re-reads the file. The model validates the stored function object itself, which the store returns for that file's id, and assumes the file still holds the same content.
- `validate_function`'s commented-out `_assert_configuration` call is not modelled, as in the source.
- TopologyStage.FwGraphsOf: the `cycle_path`s found are returned rather than stored on each forwarding graph (`fw_graph['cycles']`). The `path` key popped from each path and the trace stored on it are left out. A consequence is not captured: `load_forwarding_graphs` appends to the service's persistent list (storage.py:1198), and the conversion pops `path` from every path of a forwarding graph it reached (validator.py:599). A second topology stage on the same stored service therefore raises a KeyError at `len(fw_path['path'])` (validator.py:487) on the first such old graph. The model analyses those graphs again.
- ServiceStages.FwGraphsSection: the same; the forwarding graphs `fw0` loaded before are analysed again with their paths, where the source raises a KeyError on the first one whose paths were popped.
- Links.Lower: lower-cases ASCII letters only. Python's `str.lower` also maps other Unicode capitals. Connectivity types are ASCII.
- Services.Service.AssociateFunction: a null function is refused, where the source would raise an AttributeError. The validator never passes one.
- Python's `None` descriptor id is modelled as the empty string. Both are falsy where the source tests them.

## Findings

| source | as written | input that shows it | evidently intended | confidence | as-written member | corrected member |
|---|---|---|---|---|---|---|
| src/tngsdk/validation/storage.py:1243-1260 | `trace_path_pairs` never sets `break` to True for a pair whose second point is not a neighbour. It also looks up the neighbours of `path[x]` before testing that the node exists, so a missing node raises. | graph with nodes `a` and `b` and no edge, path `[a, b]`: no break is reported. Path `[c, a]`: raises. | a pair is broken when its first node is missing, or when its second node is neither a neighbour nor reachable through a bridge | not executed | Traces.TracePairsAsWrittenMissesBreak | Traces.TracePairs |
| src/tngsdk/validation/validator.py:651 | after reporting cycles, the stage assigns the undefined name `evtiddocker`, which raises a NameError | any forwarding graph whose paths induce a simple cycle longer than two | record the cycles with the event id just generated and carry on | not executed | ServiceStages.FwGraphEntryAsWrittenRaises | ServiceStages.FwGraphEntry |
| src/tngsdk/validation/storage.py:153 | `DescriptorStorage.function` tests `fid not in self._functions[fid]`, which raises for a missing id and tests membership in a function object for a stored one | any id | `fid not in self._functions` | not executed | Storage.DescriptorStorage.FunctionLookupRaises | Storage.DescriptorStorage.GetFunction |
| src/tngsdk/validation/storage.py:1216-1217 | `_cp_in_functions` reads `func.interfaces`, which `Function` does not define. Nothing calls `_cp_in_functions` (storage.py:1202 is its only occurrence), so the validator never reaches this raise | any `alias:cp` whose alias maps to a function | test the function's `connection_points` | not executed | ServiceQueries.CpInFunctionsAsWrittenRaises | ServiceQueries.CpInFunctionsResolved |
| src/tngsdk/validation/storage.py:1270-1276 | `undeclared_connection_points` sends a declared plain reference to the `else` branch and indexes `cpr_split[1]`, which raises an IndexError when the plain name is also a mapped alias | a service that declares `x`, maps alias `x` to a function, and has a link `x`-`x` | a declared plain reference is simply not undeclared | not executed | ServiceQueries.ServiceUndeclaredRaisesExample | ServiceQueries.ServiceUndeclaredMember |
| src/tngsdk/validation/validator.py:888-893 | `validate_function` returns True when the syntax, integrity or topology stage fails | a function whose syntax the schema validator rejects | return a failure, as `validate_service` does | not executed | FunctionStages.FunctionValidationAsWrittenPasses | FunctionStages.FunctionValidationStages |
| src/tngsdk/validation/storage.py:1309 | `associate_unit` tests `isinstance(unit, VDU_unit)`, an undefined name, so associating a unit id already associated raises a NameError | the same unit id associated twice | refuse the duplicate and report it | not executed | Units.AssociateUnitTwiceRaises | Units.AssociateUnit |
