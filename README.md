# RedstoneMania circuit core in Dafny

This project models the two classes of the RedstoneMania plugin that turn a selected region of
the block world into a logic circuit and then run it:

- **The circuit engine (`CircuitBase`).** A circuit owns an array of logic elements (wires,
  inverters, repeaters, ports, solid components) and an array of subcircuit instances. It steps
  the simulation with `doPhysics`. It numbers every element of the tree in pre-order with
  `generateIds`. `initialize` rebuilds the name-to-port index, and ids are given out only at the
  root. Elements are looked up by id with `getElement`, and `removeElement` deletes one by
  building a shrunk copy of the array.
- **The graph builder (`CircuitCreator`).** It does a memoised flood fill over the block world,
  starting at the ports the player selected. Each block it reaches is classified into a node:
  - a torch becomes an inverter;
  - a diode becomes a repeater;
  - redstone wire becomes a wire;
  - a solid block becomes a solid component.

  The nodes are joined by directed edges. Two wires that meet are merged, and a port absorbs
  the wire it touches. A solid block connects each of its inputs to each of its outputs, except
  wire to wire. At the end the output nodes are moved by an offset meant to centre them on the
  origin (each coordinate divided by the node count, then summed; see Findings), and an
  initialised circuit is made of them.

Files:

| file | module | contents |
|---|---|---|
| `elements.dfy` | `Elements` | the element record (`ref` is object identity, `id` the engine's number), `Option`, deleting one index |
| `circuit_tree.dfy` | `CircuitTree` | a circuit as a value, plus the specification functions: pre-order (`Flatten`), numbering (`Number`), the port index (`PortIndex`), `Lookup`, `Index`, and lemmas about them |
| `circuit_base.dfy` | `CircuitBase` | the engine's operations, written as the source's loops and proved against `CircuitTree` |
| `world.dfy` | `World` | the block world: a finite map from positions to blocks (material, facing, data), neighbours and faces |
| `creator_spec.dfy` | `CreatorSpec` | the builder's specification functions: delay rule, classification, merge, solid-block edges, truncating division, recentring |
| `circuit_creator.dfy` | `Creator` | `class CircuitCreator`, whose recursive methods update the position map, node list, output list and edge list in place |

The builder keeps an invariant, `Valid`, through every step of the fill:
- every mapped position and every edge names an existing node;
- the output list has no repeats and holds every inverter and repeater;
- wire and port positions hold wire-class nodes;
- every port position is mapped.

Every step also satisfies `Grows`: the position map and the node list only grow. A null
container dereferenced by the source (`create(b).value.connectTo(...)` on a position that holds
no node) sets the `faulted` flag, and `Build` then yields no circuit.

## Model

| member | source | states |
|---|---|---|
| CircuitBase.DoPhysics | src/com/bergerkiller/bukkit/rm/circuit/CircuitBase.java:29-36 | the tick trace is extended by the tree's pre-order: local elements in array order, then each subcircuit in turn |
| CircuitBase.TickFollowsIds | src/com/bergerkiller/bukkit/rm/circuit/CircuitBase.java:29-36 | on an initialised circuit one tick visits the elements in id order: the k-th element to tick carries id k and is the k-th element of the tree before numbering |
| CircuitBase.GenerateIds | src/com/bergerkiller/bukkit/rm/circuit/CircuitBase.java:122-131 | the tree is numbered in pre-order from `start` (`Number`), and the result is `start` plus the number of elements in the tree |
| CircuitBase.GenerateIdsAll | src/com/bergerkiller/bukkit/rm/circuit/CircuitBase.java:127-129 | each subcircuit in turn is numbered from where the previous one stopped; the counter ends past all their elements |
| CircuitTree.NumberFlattens | src/com/bergerkiller/bukkit/rm/circuit/CircuitBase.java:122-131 | numbering a tree gives the k-th element of its pre-order the id start + k and changes nothing else |
| CircuitTree.RootIdsDistinctAndContiguous | src/com/bergerkiller/bukkit/rm/circuit/CircuitBase.java:53-55 | after numbering from 0 at the root, the ids over the whole tree are pairwise distinct and are exactly 0 .. N-1 |
| CircuitBase.Initialize | src/com/bergerkiller/bukkit/rm/circuit/CircuitBase.java:38-40 | every circuit of the tree is initialised with a current port index; the pre-order carries the ids 0, 1, 2, ... and is otherwise unchanged |
| CircuitBase.InitializeTree | src/com/bergerkiller/bukkit/rm/circuit/CircuitBase.java:41-57 | the port index is rebuilt from the elements, subcircuits are initialised without ids, and only a root call numbers the tree |
| CircuitTree.IndexedIffFixed | src/com/bergerkiller/bukkit/rm/circuit/CircuitBase.java:41-57 | a tree is fully initialised exactly when initialising it again changes nothing |
| CircuitTree.IndexIsIdempotent | src/com/bergerkiller/bukkit/rm/circuit/CircuitBase.java:41-57 | `initialize(false)` yields a fully initialised tree, and calling it twice is the same as once |
| CircuitBase.InitializeIdempotent | src/com/bergerkiller/bukkit/rm/circuit/CircuitBase.java:38-57 | the root `initialize()`, which renumbers and then indexes, gives the same tree when called a second time |
| CircuitBase.NumberTwice | src/com/bergerkiller/bukkit/rm/circuit/CircuitBase.java:122-131 | numbering an already numbered tree leaves what numbering the original from the new start leaves: old ids leave no trace |
| CircuitBase.IndexAfterNumber | src/com/bergerkiller/bukkit/rm/circuit/CircuitBase.java:41-57 | port indexes built before a renumbering are replaced by the ones built after it: the earlier indexing leaves no trace |
| CircuitTree.IndexKeepsElements | src/com/bergerkiller/bukkit/rm/circuit/CircuitBase.java:41-57 | building the port indexes touches no element of the tree |
| CircuitTree.PortIndexHasPorts | src/com/bergerkiller/bukkit/rm/circuit/CircuitBase.java:42-49 | the index holds a name exactly when some Port of the array carries it |
| CircuitTree.PortIndexHoldsLastPorts | src/com/bergerkiller/bukkit/rm/circuit/CircuitBase.java:42-49 | a name is mapped to the last Port of the array that carries it |
| CircuitTree.PortIndexValues | src/com/bergerkiller/bukkit/rm/circuit/CircuitBase.java:42-49 | the index's values are exactly the Ports that no later Port of the same name replaces |
| CircuitBase.GetPort | src/com/bergerkiller/bukkit/rm/circuit/CircuitBase.java:62-64 | while the index is current, a port is returned exactly when the array holds a Port of that name, and it is the last such Port |
| CircuitBase.GetPorts | src/com/bergerkiller/bukkit/rm/circuit/CircuitBase.java:65-67 | while the index is current, exactly the Ports not replaced by a later Port of the same name |
| CircuitBase.GetElement | src/com/bergerkiller/bukkit/rm/circuit/CircuitBase.java:69-80 | the answer is `Lookup`: the local element at index `id`; beyond the array, the first element of a direct subcircuit with that id, or null; for a negative id, the out-of-bounds exception |
| CircuitBase.FoundInSub | src/com/bergerkiller/bukkit/rm/circuit/CircuitBase.java:71-75 | the subcircuit scan stops at the first element carrying the id |
| CircuitTree.FirstWithId | src/com/bergerkiller/bukkit/rm/circuit/CircuitBase.java:71-75 | the element found carries the id and is in the list; nothing is found exactly when no element carries it |
| CircuitTree.LookupInNumberedTree | src/com/bergerkiller/bukkit/rm/circuit/CircuitBase.java:69-80 | on a tree numbered from 0, an element is found exactly when the circuit or a direct subcircuit holds one with that id; it is the element at that position of the pre-order; the exception comes exactly for negative ids |
| CircuitTree.GrandchildrenNotSearched | src/com/bergerkiller/bukkit/rm/circuit/CircuitBase.java:71-76 | the answer is the same once every grandchild circuit is dropped: elements two levels down are never found, whatever their ids |
| CircuitBase.GetElementOf | src/com/bergerkiller/bukkit/rm/circuit/CircuitBase.java:81-83 | the answer for the guide's id |
| CircuitTree.FindRef | src/com/bergerkiller/bukkit/rm/circuit/CircuitBase.java:85-90 | the first index holding the same object, or none when no index does |
| CircuitBase.RemoveElement | src/com/bergerkiller/bukkit/rm/circuit/CircuitBase.java:84-91 | the first element that is the same object is cut out and the others keep their order; with none, the circuit is unchanged |
| CircuitBase.RemovalTakesOutOne | src/com/bergerkiller/bukkit/rm/circuit/CircuitBase.java:84-91 | exactly one element carrying the identity leaves, and every other element stays (as a multiset) |
| CircuitBase.RemoveAt | src/com/bergerkiller/bukkit/rm/circuit/CircuitBase.java:92-101 | the new array is one shorter and holds the old one without that index |
| Elements.WithoutShifts | src/com/bergerkiller/bukkit/rm/circuit/CircuitBase.java:92-101 | elements before the index stay in place and the rest move down by one |
| CreatorSpec.DiodeSetting | src/com/bergerkiller/bukkit/rm/circuit/CircuitCreator.java:95 | a diode's setting is between 1 and 4 |
| CreatorSpec.GetDelay | src/com/bergerkiller/bukkit/rm/circuit/CircuitCreator.java:88-99 | a configured delay wins; otherwise the delay is a multiple of the torch delay, at most four of them, and non-zero exactly for torches and diodes |
| CreatorSpec.ClassifiedStartState | src/com/bergerkiller/bukkit/rm/circuit/CircuitCreator.java:128-147 | exactly torches, diodes, wires and solid blocks are classified; a new node has no edges; it is powered exactly for an off torch, an on diode or wire with non-zero data; only inverters, repeaters and configured positions get a delay |
| Creator.CircuitCreator.constructor | src/com/bergerkiller/bukkit/rm/circuit/CircuitCreator.java:45-57 | each selected port becomes a Port node at its position, in selection order, and is listed; its position maps to the last port selected there; the invariant holds |
| Creator.CircuitCreator.PortSlotsNamePorts | src/com/bergerkiller/bukkit/rm/circuit/CircuitCreator.java:48-56 | every selected position is mapped, and to a port selected at that position |
| Creator.CircuitCreator.SeedIsConsistent | src/com/bergerkiller/bukkit/rm/circuit/CircuitCreator.java:45-57 | the seeded state satisfies the builder invariant |
| CreatorSpec.MergeLeavesNoTrace | src/com/bergerkiller/bukkit/rm/circuit/CircuitCreator.java:110-116 | after a merge, no position and no edge names the merged node, and everything else is kept |
| CreatorSpec.RemoveFirstTakesOut | src/com/bergerkiller/bukkit/rm/circuit/CircuitCreator.java:114 | removing from the output list takes out exactly one occurrence of the node |
| CreatorSpec.RemoveFirstKeepsDistinct | src/com/bergerkiller/bukkit/rm/circuit/CircuitCreator.java:114 | from a list without repeats, removal leaves one without repeats that lacks the node and keeps every other node |
| Creator.CircuitCreator.MergeKeepsConsistent | src/com/bergerkiller/bukkit/rm/circuit/CircuitCreator.java:110-116 | merging one wire-class node into another keeps the builder invariant and takes the merged node off the output list |
| Creator.CircuitCreator.Transfer | src/com/bergerkiller/bukkit/rm/circuit/CircuitCreator.java:110-116 | nothing happens for the same node; otherwise map and edges are redirected, the node leaves the output list, and the invariant is kept |
| Creator.CircuitCreator.Create | src/com/bergerkiller/bukkit/rm/circuit/CircuitCreator.java:124-203 | a mapped position is returned with nothing changed; an unclassified one changes nothing; otherwise the classified node is made under a fresh ref and mapped there, and a torch or diode node is listed; the result is what the position then holds |
| Creator.CircuitCreator.AddNode | src/com/bergerkiller/bukkit/rm/circuit/CircuitCreator.java:128-147 | the new node is appended under the next ref and mapped at the position; it is added once to the output list unless it is a solid component |
| Creator.CircuitCreator.AddKeepsConsistent | src/com/bergerkiller/bukkit/rm/circuit/CircuitCreator.java:128-147 | adding the classified node of an unmapped position keeps the builder invariant |
| Creator.CircuitCreator.Expand | src/com/bergerkiller/bukkit/rm/circuit/CircuitCreator.java:128-200 | continuing the fill from a new node keeps the invariant, and the map and node list only grow |
| Creator.CircuitCreator.ConnectTo | src/com/bergerkiller/bukkit/rm/circuit/CircuitCreator.java:226 | an edge to another node is appended; none to itself; an empty container faults |
| Creator.CircuitCreator.ConnectFrom | src/com/bergerkiller/bukkit/rm/circuit/CircuitCreator.java:264 | an edge from the node a position holds is appended; an empty container faults |
| Creator.CircuitCreator.CreateInverter | src/com/bergerkiller/bukkit/rm/circuit/CircuitCreator.java:221-243 | the invariant is kept and the map and node list only grow |
| Creator.CircuitCreator.InverterFace | src/com/bergerkiller/bukkit/rm/circuit/CircuitCreator.java:222-236 | the invariant is kept and the map and node list only grow |
| Creator.CircuitCreator.InverterBlocks | src/com/bergerkiller/bukkit/rm/circuit/CircuitCreator.java:237-242 | the invariant is kept and the map and node list only grow |
| Creator.CircuitCreator.CreateRepeater | src/com/bergerkiller/bukkit/rm/circuit/CircuitCreator.java:245-273 | the invariant is kept and the map and node list only grow |
| Creator.CircuitCreator.RepeaterOutput | src/com/bergerkiller/bukkit/rm/circuit/CircuitCreator.java:246-259 | the invariant is kept and the map and node list only grow |
| Creator.CircuitCreator.RepeaterInput | src/com/bergerkiller/bukkit/rm/circuit/CircuitCreator.java:260-272 | the invariant is kept and the map and node list only grow |
| Creator.CircuitCreator.CreatePort | src/com/bergerkiller/bukkit/rm/circuit/CircuitCreator.java:205-219 | the invariant is kept and the map and node list only grow |
| Creator.CircuitCreator.PortFace | src/com/bergerkiller/bukkit/rm/circuit/CircuitCreator.java:206-218 | the invariant is kept and the map and node list only grow |
| Creator.CircuitCreator.ConnectWire | src/com/bergerkiller/bukkit/rm/circuit/CircuitCreator.java:275-300 | the same node: nothing changes; an empty position is mapped to the node; an incoming Port absorbs the node found and is returned (a port-port merge is reported); otherwise the incoming node is merged into the one found, which is returned; a merge redirects the map and the edges, drops the merged node from the output list and keeps the nodes and the fault flag; the survivor is wire-class |
| Creator.CircuitCreator.CreateWire | src/com/bergerkiller/bukkit/rm/circuit/CircuitCreator.java:302-352 | the invariant is kept, the map and node list only grow, and the node carried along stays a wire-class node |
| Creator.CircuitCreator.SpreadWire | src/com/bergerkiller/bukkit/rm/circuit/CircuitCreator.java:307-341 | the node that carries on is an existing wire-class node; the invariant is kept |
| Creator.CircuitCreator.WireTail | src/com/bergerkiller/bukkit/rm/circuit/CircuitCreator.java:343-351 | the invariant is kept and the map and node list only grow |
| Creator.CircuitCreator.CreateSolid | src/com/bergerkiller/bukkit/rm/circuit/CircuitCreator.java:354-376 | unless it faulted, the last edges added are exactly `SolidPairs` of the containers read after all visits |
| Creator.CircuitCreator.VisitAll | src/com/bergerkiller/bukkit/rm/circuit/CircuitCreator.java:358-363 | the invariant is kept and the map and node list only grow |
| Creator.CircuitCreator.ConnectPairs | src/com/bergerkiller/bukkit/rm/circuit/CircuitCreator.java:365-374 | the edges of `SolidPairs` are appended; it faults exactly when some pair meets an empty container; nothing else changes |
| Creator.CircuitCreator.SolidEdges | src/com/bergerkiller/bukkit/rm/circuit/CircuitCreator.java:365-374 | the nested loops yield `SolidPairs`, and they fault exactly when an empty container is among the pairs |
| Creator.CircuitCreator.RowEdges | src/com/bergerkiller/bukkit/rm/circuit/CircuitCreator.java:366-373 | one input's row of edges is `SolidRow`; the row faults exactly when it meets an empty container |
| CreatorSpec.SolidRowSpec | src/com/bergerkiller/bukkit/rm/circuit/CircuitCreator.java:366-373 | an edge is in one input's row exactly when it starts at that input, ends at one of the outputs, and the pair is not wire to wire or a node to itself |
| CreatorSpec.SolidPairsSpec | src/com/bergerkiller/bukkit/rm/circuit/CircuitCreator.java:365-374 | an edge is added exactly when it joins an input to an output that are distinct and not both wire-class |
| CreatorSpec.TruncDiv | src/com/bergerkiller/bukkit/rm/circuit/CircuitCreator.java:73-74 | the quotient is rounded toward zero, as Java's integer division is |
| Creator.CircuitCreator.Recentre | src/com/bergerkiller/bukkit/rm/circuit/CircuitCreator.java:70-75 | as written: the offset is the sum of each coordinate divided by the count, and zero when there are no nodes |
| CreatorSpec.PerTermCentreMissesCentroid | src/com/bergerkiller/bukkit/rm/circuit/CircuitCreator.java:69-75 | three nodes at x = 2 get the offset 0 as written, so their coordinates still sum to 6; the mean gives 2 and a sum of 0 |
| Creator.CircuitCreator.Midpoint | src/com/bergerkiller/bukkit/rm/circuit/CircuitCreator.java:69-75 | corrected: the offset is the mean of each coordinate, truncated toward zero, and after moving by it each coordinate sum lies strictly within the count of zero |
| CreatorSpec.MeanCentres | src/com/bergerkiller/bukkit/rm/circuit/CircuitCreator.java:69-78 | moving the nodes by the mean leaves their centroid less than one block from the origin, as the comment on line 69 intends |
| CreatorSpec.SumShifted | src/com/bergerkiller/bukkit/rm/circuit/CircuitCreator.java:76-78 | moving every coordinate by the same offset moves their sum by the count times the offset |
| Creator.CircuitCreator.Shift | src/com/bergerkiller/bukkit/rm/circuit/CircuitCreator.java:76-78 | every element is moved by one and the same offset |
| CreatorSpec.TranslateIsRigid | src/com/bergerkiller/bukkit/rm/circuit/CircuitCreator.java:76-78 | recentring keeps every pairwise position difference and everything but the position |
| CreatorSpec.AdjacencyMatchesEdges | src/com/bergerkiller/bukkit/rm/circuit/CircuitCreator.java:82 | a node's output list and input list describe exactly the edges made |
| Creator.CircuitCreator.Build | src/com/bergerkiller/bukkit/rm/circuit/CircuitCreator.java:64-86 | it yields no circuit exactly when the fill faulted; otherwise the circuit is the output nodes moved by the offset of `Recentre` (each coordinate divided by the count, then summed, as written), numbered from 0 and initialised, and the invariant is kept |
| Creator.CircuitCreator.InstanceFor | src/com/bergerkiller/bukkit/rm/circuit/CircuitCreator.java:158-163 | a recorded instance is returned and nothing changes; otherwise the created instance is returned and recorded under the full name, so there is at most one per name |

## Left out

- Circuits are values: an operation returns the updated circuit. In-place update of a circuit object, and sharing of element objects between a circuit's array and its port index, are not modelled. Ids are therefore given out before the index is filled, which leaves the same final state.
- Element internals are not modelled: `updateTick`, `onPowerChange`, `setCircuit`, and the bodies of `connectTo`, `connect` and `Redstone.transfer`. A tick appends the element to a trace. An edge list stands for the elements' input and output lists.
- Connecting to a null node is taken to throw, as dereferencing null does. A fault ends the build with no circuit.
- File-based `load`, `save`, `isSaved` and `getFile` (CircuitBase.java:133-206) are file I/O, and the stream versions are empty. `log` is logging only.
- The registry branch of `create(block)` (CircuitCreator.java:150-196) looks up ports of other circuits through code that is not part of this model. A lever is therefore always treated as carrying no registered port, so it stays unclassified. The instance memo inside that branch is modelled by `InstanceFor`.
- Because of that, `CreatePort` has no caller in the model, and the built circuit has no subcircuits. Its name is empty, as the source never sets one.
- `msg` (player chat) becomes the `warned` flag, set on a port-port merge. The out-of-reach message belongs to the registry branch.
- The world is a finite map from positions to blocks, and the Bukkit types behind it are not modelled.
- Every block carries a facing, which stands for `BlockUtil.getFacing` on any block, directional or not. A position outside the map is taken to be air facing up. Because of line 261, the input side of every repeater compares the facing of the block behind it with its own, so air behind a repeater never matches unless the repeater faces up.
- The `MaterialUtil` and `Util.ISSOLID` predicates become a fixed material set (torch on/off, diode on/off, wire, lever, solid, other).
- The order of `FaceUtil.AXIS` and `FaceUtil.ATTACHEDFACESDOWN` is taken to be north, east, south, west, then down.
- `getAttachedBlock` is taken to be the block one step against the facing.
- A diode's setting is taken to be its data's upper two bits plus one.
- The input and output positions a solid block connects are supplied with the world, as the `SolidComponent` constructor is not part of this model.
- The centring sums are `double` in the source. `getX` and `getZ` are taken to return `int`, so each term is an integer division that truncates toward zero, and the sum of such terms is exact. The model therefore sums integers and leaves out floating point.
- CreatorSpec.WireClass: `Redstone.isType` and the numbering of element types are not part of this model. `isType(0, 3)` on lines 367-368 is taken to mean "a wire or a port", so a solid block connects no port input to a wire output, nor a wire input to a port output. If type 3 is not the port, those pairs are connected, and `SolidPairsSpec` describes a different edge set.
- CircuitTree.RootIdsDistinctAndContiguous: each element object is taken to occur at most once in a tree, as the builder guarantees (its output list has no repeats). Elements are records here, so one object at two places of a tree is two records. For an array holding the same object twice, `generateIds` leaves that object with the later id, while `Number` gives the two records two ids.
- CircuitBase.GenerateIds: the same assumption; shared element objects are not modelled.
- Line 261 of CircuitCreator.java tests the repeater's own material, not the input block's, and is modelled as written. Only the diode branch of the input side can apply.
- Creator.CircuitCreator.CreateInverter: its contract states only the builder invariant and growth, not which edges the fill adds. An edge stated by ref can be renamed by merges deeper in the recursion. Merges redirect the map and the edges together, so an edge stated through the map, such as `Edge(r, memo[b])` for a wire beside the torch, would survive them; such edges are not stated here.
- Creator.CircuitCreator.InverterBlocks: the same; only the invariant and growth are stated.
- Creator.CircuitCreator.InverterFace: the same; only the invariant and growth are stated.
- Creator.CircuitCreator.CreateRepeater: the same; only the invariant and growth are stated.
- Creator.CircuitCreator.RepeaterOutput: the same; only the invariant and growth are stated.
- Creator.CircuitCreator.RepeaterInput: the same; only the invariant and growth are stated.
- Creator.CircuitCreator.CreatePort: the same; only the invariant and growth are stated.
- Creator.CircuitCreator.PortFace: the same; only the invariant and growth are stated.
- Creator.CircuitCreator.CreateWire: the same; only the invariant, growth and the wire-class carried node are stated.
- Creator.CircuitCreator.SpreadWire: the same; only the invariant, growth and the wire-class carried node are stated.
- Creator.CircuitCreator.WireTail: the same; only the invariant and growth are stated.
- Creator.CircuitCreator.VisitAll: the same; only the invariant and growth are stated.
- Creator.CircuitCreator.Expand: the same; only the invariant and growth are stated.

## Findings

| source | as written | input that shows it | evidently intended | confidence | as-written member | corrected member |
|---|---|---|---|---|---|---|
| src/com/bergerkiller/bukkit/rm/circuit/CircuitCreator.java:69-75 | each coordinate is divided by the node count before it is summed, so the truncations add up and the offset can miss the centroid by up to the count minus one | three nodes at x = 2: every term `2 / 3` is 0, the offset is 0, and the centroid stays at 2 | the circuit "nicely centered at 0x0": sum the coordinates and divide once, so the centroid ends within one block of the origin | medium; not executed | CreatorSpec.PerTermCentreMissesCentroid (about Creator.CircuitCreator.Recentre) | Creator.CircuitCreator.Midpoint, with CreatorSpec.MeanCentres |
