/**
 The graph builder (`CircuitCreator`): a memoised flood fill over the block world that starts
 at the selected port positions, classifies every block it reaches into a node (inverter for
 a torch, repeater for a diode, wire, solid component) and joins the nodes with directed edges.

 The builder is one object whose state the recursive methods update in place:
 - `memo` is the position map (`RedstoneMap`): the node each position holds, if any;
 - `nodes` holds every node ever made, indexed by ref (ref = object identity, handed out in order);
 - `items` is the output list, `edges` the connections made so far;
 - `warned` records a port-port merge (reported to the player), `faulted` a dereference of an
   empty position (a NullPointerException in the plugin, which aborts the build).
 */
module Creator {
  import opened Elements
  import opened World
  import opened CreatorSpec
  import opened CircuitTree
  import CircuitBase

  class CircuitCreator {
    const world: World
    const delays: map<Pos, int>
    const ports: seq<Pos>
    var memo: map<Pos, nat>
    var nodes: seq<Redstone>
    var items: seq<nat>
    var edges: seq<Edge>
    var subcircuits: map<string, Option<Circuit>>
    var warned: bool
    var faulted: bool

    /**
     The builder's invariant: the map and the lists only name existing nodes, the output list
     has no repeats, every inverter and repeater is in the output list, wire and port
     positions hold wire-class nodes, and every port position is mapped.
     */
    ghost predicate Valid()
      reads this
    {
      Consistent(world, ports, memo, nodes, items, edges)
    }

    static ghost predicate Consistent(world: World, ports: seq<Pos>, memo: map<Pos, nat>, nodes: seq<Redstone>,
                                      items: seq<nat>, edges: seq<Edge>)
    {
      (forall p :: p in memo ==> memo[p] < |nodes|)
      && (forall p :: p in memo && (At(world, p).material == RedstoneWire || p in ports) ==> WireClass(nodes[memo[p]].kind))
      && (forall i :: 0 <= i < |ports| ==> ports[i] in memo)
      && (forall i :: 0 <= i < |items| ==> items[i] < |nodes|)
      && Distinct(items)
      && (forall r :: 0 <= r < |nodes| && (nodes[r].kind.Inverter? || nodes[r].kind.Repeater?) ==> r in items)
      && (forall e :: e in edges ==> e.from < |nodes| && e.to < |nodes|)
    }

    /** Merging one wire-class node into another keeps the builder's invariant, and the merged node leaves the output list. */
    static lemma MergeKeepsConsistent(world: World, ports: seq<Pos>, memo: map<Pos, nat>, nodes: seq<Redstone>,
                                      items: seq<nat>, edges: seq<Edge>, from: nat, to: nat)
      requires Consistent(world, ports, memo, nodes, items, edges)
      requires from < |nodes| && to < |nodes| && from != to
      requires WireClass(nodes[from].kind) && WireClass(nodes[to].kind)
      ensures Consistent(world, ports, Redirect(memo, from, to), nodes, RemoveFirst(items, from), RedirectEdges(edges, from, to))
      ensures from !in RemoveFirst(items, from)
    {
      MergeLeavesNoTrace(memo, edges, from, to);
      RemoveFirstKeepsDistinct(items, from);
      RemoveFirstTakesOut(items, from);
      var its := RemoveFirst(items, from);
      forall i | 0 <= i < |its|
        ensures its[i] < |nodes|
      {
        assert its[i] in multiset(its);
        assert its[i] in multiset(items);
      }
      var es := RedirectEdges(edges, from, to);
      forall e | e in es
        ensures e.from < |nodes| && e.to < |nodes|
      {
        var i :| 0 <= i < |es| && es[i] == e;
        assert edges[i] in edges;
      }
    }

    /** What every step of the fill keeps: positions stay mapped, nodes are never changed or dropped. */
    twostate predicate Grows()
      reads this
    {
      old(memo.Keys) <= memo.Keys && old(nodes) <= nodes && subcircuits == old(subcircuits)
    }

    /**
     Seeds the builder with the selected ports: each becomes a Port node at its position, is
     mapped there and is added to the output list, in selection order.
     */
    constructor (world: World, delays: map<Pos, int>, selected: seq<(string, Pos)>)
      ensures Valid()
      ensures this.world == world && this.delays == delays
      ensures ports == seq(|selected|, i requires 0 <= i < |selected| => selected[i].1)
      ensures items == seq(|selected|, i requires 0 <= i < |selected| => i)
      ensures nodes == seq(|selected|, i requires 0 <= i < |selected| => SeedPort(selected[i], i))
      ensures memo == PortSlots(selected)
      ensures edges == [] && subcircuits == map[] && !warned && !faulted
    {
      var m: map<Pos, nat> := map[];
      var ns: seq<Redstone> := [];
      var ps: seq<Pos> := [];
      var its: seq<nat> := [];
      for i := 0 to |selected|
        invariant ps == seq(i, k requires 0 <= k < i => selected[k].1)
        invariant its == seq(i, k requires 0 <= k < i => k)
        invariant ns == seq(i, k requires 0 <= k < i => SeedPort(selected[k], k))
        invariant m == PortSlots(selected[..i])
      {
        ps := ps + [selected[i].1];
        ns := ns + [SeedPort(selected[i], i)];
        m := m[selected[i].1 := i];
        its := its + [i];
        assert selected[..i + 1][..i] == selected[..i];
      }
      assert selected[..|selected|] == selected;
      SeedIsConsistent(world, selected);
      this.world := world;
      this.delays := delays;
      ports := ps;
      memo := m;
      nodes := ns;
      items := its;
      edges := [];
      subcircuits := map[];
      warned := false;
      faulted := false;
    }

    /** The Port node made for a selected (name, position) pair. */
    static function SeedPort(selected: (string, Pos), ref: nat): Redstone
    {
      Redstone(ref, 0, Port(selected.0), selected.1.x, selected.1.z, false, 0, [], [])
    }

    /** The map left by seeding: each port position holds the last port selected there. */
    static ghost function PortSlots(selected: seq<(string, Pos)>): map<Pos, nat>
      decreases |selected|
    {
      if |selected| == 0 then map[]
      else PortSlots(selected[..|selected| - 1])[selected[|selected| - 1].1 := |selected| - 1]
    }

    /** Each selected position is mapped, to the index of a port selected there. */
    static lemma {:induction false} PortSlotsNamePorts(selected: seq<(string, Pos)>)
      decreases |selected|
      ensures forall i :: 0 <= i < |selected| ==> selected[i].1 in PortSlots(selected)
      ensures forall p :: p in PortSlots(selected) ==>
        PortSlots(selected)[p] < |selected| && selected[PortSlots(selected)[p]].1 == p
    {
      if |selected| > 0 {
        PortSlotsNamePorts(selected[..|selected| - 1]);
      }
    }

    /** The seeded state satisfies the builder's invariant. */
    static lemma SeedIsConsistent(world: World, selected: seq<(string, Pos)>)
      ensures Consistent(world, seq(|selected|, i requires 0 <= i < |selected| => selected[i].1), PortSlots(selected),
                         seq(|selected|, i requires 0 <= i < |selected| => SeedPort(selected[i], i)),
                         seq(|selected|, i requires 0 <= i < |selected| => i), [])
    {
      PortSlotsNamePorts(selected);
    }

    /** `connectTo`: an edge `a -> b` unless `b` is the same node; an empty target faults. */
    method ConnectTo(a: nat, b: Option<nat>)
      requires Valid() && a < |nodes| && (b.Some? ==> b.value < |nodes|)
      modifies this
      ensures Valid() && Grows()
      ensures memo == old(memo) && items == old(items) && nodes == old(nodes) && warned == old(warned)
      ensures b.None? ==> faulted && edges == old(edges)
      ensures b.Some? ==> faulted == old(faulted) && edges == old(edges) + (if a == b.value then [] else [Edge(a, b.value)])
    {
      if b.None? {
        faulted := true;
      } else if a != b.value {
        edges := edges + [Edge(a, b.value)];
      }
    }

    /** `x.connectTo(b)` where `x` is the node a position holds; an empty position faults. */
    method ConnectFrom(a: Option<nat>, b: nat)
      requires Valid() && b < |nodes| && (a.Some? ==> a.value < |nodes|)
      modifies this
      ensures Valid() && Grows()
      ensures memo == old(memo) && items == old(items) && nodes == old(nodes) && warned == old(warned)
      ensures a.None? ==> faulted && edges == old(edges)
      ensures a.Some? ==> faulted == old(faulted) && edges == old(edges) + (if a.value == b then [] else [Edge(a.value, b)])
    {
      if a.None? {
        faulted := true;
      } else if a.value != b {
        edges := edges + [Edge(a.value, b)];
      }
    }

    /**
     `transfer(from, to)`: nothing when they are the same node; otherwise every position and
     every edge naming `from` names `to`, and `from` leaves the output list.
     */
    method Transfer(from: nat, to: nat)
      requires Valid() && from < |nodes| && to < |nodes|
      requires WireClass(nodes[from].kind) && WireClass(nodes[to].kind)
      modifies this
      ensures Valid() && Grows()
      ensures from == to ==> unchanged(this)
      ensures from != to ==>
        memo == Redirect(old(memo), from, to) && edges == RedirectEdges(old(edges), from, to) &&
        items == RemoveFirst(old(items), from) && from !in items
      ensures nodes == old(nodes) && warned == old(warned) && faulted == old(faulted)
    {
      if from != to {
        MergeKeepsConsistent(world, ports, memo, nodes, items, edges, from, to);
        memo, edges, items := Redirect(memo, from, to), RedirectEdges(edges, from, to), RemoveFirst(items, from);
      }
    }

    /**
     `create(block)`: a position already holding a node is returned as it is; otherwise a torch,
     diode, wire or solid block gets a new node with its starting state, mapped at the position
     (torch, diode and wire nodes also appended to the output list), and the fill continues from it.
     The result is the node the position holds afterwards.
     */
    method Create(p: Pos) returns (r: Option<nat>)
      requires Valid()
      modifies this
      decreases world.blocks.Keys - memo.Keys, 0
      ensures Valid() && Grows()
      ensures r == (if p in memo then Some(memo[p]) else None)
      ensures r.Some? ==> r.value < |nodes|
      ensures p in old(memo) ==> unchanged(this)
      ensures p !in old(memo) && Classify(delays, world, p, old(|nodes|)).None? ==> unchanged(this)
      ensures p !in old(memo) && Classify(delays, world, p, old(|nodes|)).Some? ==>
        p in memo && old(|nodes|) < |nodes| && nodes[old(|nodes|)] == Classify(delays, world, p, old(|nodes|)).value
      ensures p !in old(memo) && (IsTorch(At(world, p).material) || IsDiode(At(world, p).material)) ==>
        old(|nodes|) in items
    {
      if p in memo {
        return Some(memo[p]);
      }
      if Classify(delays, world, p, |nodes|).None? {
        return None;
      }
      var made := AddNode(p);
      assert p in world.blocks.Keys - old(memo.Keys);
      assert world.blocks.Keys - memo.Keys < world.blocks.Keys - old(memo.Keys);
      Expand(made, p);
      r := Some(memo[p]);
    }

    /** The classified node is made, mapped at `p` and, unless it is a solid component, appended to the output list. */
    method AddNode(p: Pos) returns (made: nat)
      requires Valid() && p !in memo && Classify(delays, world, p, |nodes|).Some?
      modifies this
      ensures Valid() && Grows()
      ensures made == old(|nodes|) && nodes == old(nodes) + [Classify(delays, world, p, made).value]
      ensures memo == old(memo)[p := made]
      ensures items == if IsSolid(At(world, p).material) then old(items) else old(items) + [made]
      ensures edges == old(edges) && warned == old(warned) && faulted == old(faulted)
    {
      made := |nodes|;
      AddKeepsConsistent(world, delays, ports, memo, nodes, items, edges, p);
      nodes, memo, items := nodes + [Classify(delays, world, p, made).value], memo[p := made],
        if IsSolid(At(world, p).material) then items else items + [made];
    }

    /** Adding the classified node of an unmapped position keeps the builder's invariant. */
    static lemma AddKeepsConsistent(world: World, delays: map<Pos, int>, ports: seq<Pos>, memo: map<Pos, nat>,
                                    nodes: seq<Redstone>, items: seq<nat>, edges: seq<Edge>, p: Pos)
      requires Consistent(world, ports, memo, nodes, items, edges)
      requires p !in memo && Classify(delays, world, p, |nodes|).Some?
      ensures var n := |nodes|;
        Consistent(world, ports, memo[p := n], nodes + [Classify(delays, world, p, n).value],
                   if IsSolid(At(world, p).material) then items else items + [n], edges)
    {
      var n := |nodes|;
      var ns := nodes + [Classify(delays, world, p, n).value];
      assert forall r :: 0 <= r < n ==> ns[r] == nodes[r];
      assert n !in items;
    }

    /** Continues the fill from the node just made at `p`, by the material there. */
    method Expand(made: nat, p: Pos)
      requires Valid() && made < |nodes| && Classify(delays, world, p, made) == Some(nodes[made])
      modifies this
      decreases world.blocks.Keys - memo.Keys, 4
      ensures Valid() && Grows()
    {
      var m := At(world, p).material;
      if IsTorch(m) {
        CreateInverter(made, p);
      } else if IsDiode(m) {
        CreateRepeater(made, p);
      } else if m == RedstoneWire {
        CreateWire(made, p);
      } else if IsSolid(m) {
        CreateSolid(made, p);
      }
    }

    /**
     `createInverter`: feeds the wires around and below it and the diodes around it that face
     away from it, then visits a solid block above and the block it hangs on.
     */
    method CreateInverter(r: nat, p: Pos)
      requires Valid() && r < |nodes|
      modifies this
      decreases world.blocks.Keys - memo.Keys, 3
      ensures Valid() && Grows()
    {
      for i := 0 to |AttachedFacesDown|
        invariant Valid() && Grows()
      {
        InverterFace(r, p, AttachedFacesDown[i]);
      }
      InverterBlocks(p);
    }

    /** The blocks a torch touches without feeding them: a solid block above, then the block it hangs on. */
    method InverterBlocks(p: Pos)
      requires Valid()
      modifies this
      decreases world.blocks.Keys - memo.Keys, 2
      ensures Valid() && Grows()
    {
      var above := Relative(p, Up);
      if IsSolid(At(world, above).material) {
        Visit(above);
      }
      ghost var todo, before := world.blocks.Keys - memo.Keys, world.blocks.Keys - old(memo.Keys);
      assert todo < before || todo == before;
      Visit(AttachedBlock(world, p));
    }

    /** One side of a torch: a wire there is fed; a diode there facing the same way (not below) is fed. */
    method InverterFace(r: nat, p: Pos, face: Face)
      requires Valid() && r < |nodes|
      modifies this
      decreases world.blocks.Keys - memo.Keys, 1
      ensures Valid() && Grows()
    {
      var b := Relative(p, face);
      var bt := At(world, b).material;
      if bt == RedstoneWire {
        var x := Create(b);
        ConnectTo(r, x);
      } else if IsDiode(bt) {
        if face != Down && At(world, b).facing == face {
          var x := Create(b);
          ConnectTo(r, x);
        }
      }
    }

    /** `createRepeater`: the output side, then the input side, both along the diode's facing. */
    method CreateRepeater(r: nat, p: Pos)
      requires Valid() && r < |nodes|
      modifies this
      decreases world.blocks.Keys - memo.Keys, 2
      ensures Valid() && Grows()
    {
      var facing := At(world, p).facing;
      RepeaterOutput(r, p, facing);
      RepeaterInput(r, p, facing);
    }

    /** The block the repeater faces: a wire, or a diode facing the same way, is fed; a solid block is visited. */
    method RepeaterOutput(r: nat, p: Pos, facing: Face)
      requires Valid() && r < |nodes|
      modifies this
      decreases world.blocks.Keys - memo.Keys, 1
      ensures Valid() && Grows()
    {
      var output := Relative(p, facing);
      var outputType := At(world, output).material;
      if outputType == RedstoneWire {
        var x := Create(output);
        ConnectTo(r, x);
      } else if IsDiode(outputType) {
        if At(world, output).facing == facing {
          var x := Create(output);
          ConnectTo(r, x);
        }
      } else if IsSolid(outputType) {
        var x := Create(output);
      }
    }

    /**
     The block behind the repeater. The material tested is the repeater's own, so the wire
     case never applies to a diode and only a diode behind it facing the same way feeds it.
     */
    method RepeaterInput(r: nat, p: Pos, facing: Face)
      requires Valid() && r < |nodes|
      modifies this
      decreases world.blocks.Keys - memo.Keys, 1
      ensures Valid() && Grows()
    {
      var input := Relative(p, Opposite(facing));
      var inputType := At(world, p).material;
      if inputType == RedstoneWire {
        var x := Create(input);
        ConnectFrom(x, r);
      } else if IsDiode(inputType) {
        if At(world, input).facing == facing {
          var x := Create(input);
          ConnectFrom(x, r);
        }
      } else if IsSolid(inputType) {
        var x := Create(input);
      }
    }

    /** `createPort`: a port lever feeds the wires around and below it and takes input from the torches around it. */
    method CreatePort(r: nat, lever: Pos)
      requires Valid() && r < |nodes|
      modifies this
      decreases world.blocks.Keys - memo.Keys, 2
      ensures Valid() && Grows()
    {
      for i := 0 to |AttachedFacesDown|
        invariant Valid() && Grows()
      {
        PortFace(r, lever, AttachedFacesDown[i]);
      }
    }

    /**
     One side of a port lever. Below it the port connects to the wire; beside it the wire is
     connected to the port, and `x.connect(r)` is the mirror call `r.connectTo(x)`, so both add `r -> x`.
     */
    method PortFace(r: nat, lever: Pos, face: Face)
      requires Valid() && r < |nodes|
      modifies this
      decreases world.blocks.Keys - memo.Keys, 1
      ensures Valid() && Grows()
    {
      var b := Relative(lever, face);
      var bt := At(world, b).material;
      if bt == RedstoneWire {
        var x := Create(b);
        ConnectTo(r, x);
      } else if IsTorch(bt) {
        var x := Create(b);
        ConnectFrom(x, r);
      }
    }

    /**
     `connectWire`: joins the wire at `wire` to the wire node `redstone`. The same node there:
     nothing to do. An empty position: it is mapped to `redstone` and the fill continues from
     it. Otherwise the two nodes are merged: an incoming port absorbs the node found (a
     port-port merge is reported), else the incoming node is merged into the one found.
     The result is the node that survives.
     */
    method ConnectWire(wire: Pos, redstone: nat) returns (r: nat)
      requires Valid() && redstone < |nodes| && WireClass(nodes[redstone].kind)
      requires At(world, wire).material == RedstoneWire
      modifies this
      decreases world.blocks.Keys - memo.Keys, 0
      ensures Valid() && Grows()
      ensures r < |nodes| && WireClass(nodes[r].kind)
      ensures wire in old(memo) && old(memo[wire]) == redstone ==> r == redstone && unchanged(this)
      ensures wire !in old(memo) ==> r == redstone && wire in memo
      ensures wire in old(memo) && old(memo[wire]) != redstone && nodes[redstone].kind.Port? ==>
        r == redstone && memo == Redirect(old(memo), old(memo[wire]), redstone) &&
        edges == RedirectEdges(old(edges), old(memo[wire]), redstone) &&
        items == RemoveFirst(old(items), old(memo[wire])) &&
        warned == (old(warned) || nodes[old(memo[wire])].kind.Port?) &&
        nodes == old(nodes) && faulted == old(faulted)
      ensures wire in old(memo) && old(memo[wire]) != redstone && !nodes[redstone].kind.Port? ==>
        r == old(memo[wire]) && memo == Redirect(old(memo), redstone, r) &&
        edges == RedirectEdges(old(edges), redstone, r) &&
        items == RemoveFirst(old(items), redstone) && warned == old(warned) &&
        nodes == old(nodes) && faulted == old(faulted)
    {
      if wire in memo && memo[wire] == redstone {
        return redstone;
      }
      if wire !in memo {
        memo := memo[wire := redstone];
        assert wire in world.blocks.Keys - old(memo.Keys);
        assert world.blocks.Keys - memo.Keys < world.blocks.Keys - old(memo.Keys);
        CreateWire(redstone, wire);
        return redstone;
      }
      var existing := memo[wire];
      if nodes[redstone].kind.Port? {
        if nodes[existing].kind.Port? {
          warned := true;
        }
        Transfer(existing, redstone);
        r := redstone;
      } else {
        Transfer(redstone, existing);
        r := existing;
      }
    }

    /**
     `createWire`: spreads the wire node `redstone` from `wire` over the four horizontal
     neighbours, then visits a lever above, the block below and a torch above. A merge may
     replace the node being spread on the way.
     */
    method CreateWire(redstone: nat, wire: Pos)
      requires Valid() && redstone < |nodes| && WireClass(nodes[redstone].kind)
      modifies this
      decreases world.blocks.Keys - memo.Keys, 3
      ensures Valid() && Grows()
    {
      var current: nat := redstone;
      var aboveWire := Relative(wire, Up);
      var aboveType := At(world, aboveWire).material;
      for i := 0 to |Axis|
        invariant Valid() && Grows()
        invariant current < |nodes| && WireClass(nodes[current].kind)
      {
        current := SpreadWire(current, wire, Axis[i], aboveType);
      }
      WireTail(wire);
    }

    /** The end of `createWire`: a lever above the wire, the block below it, then a torch above it. */
    method WireTail(wire: Pos)
      requires Valid()
      modifies this
      decreases world.blocks.Keys - memo.Keys, 2
      ensures Valid() && Grows()
    {
      var aboveWire := Relative(wire, Up);
      if At(world, aboveWire).material == Lever {
        Visit(aboveWire);
      }
      Visit(Relative(wire, Down));
      if IsTorch(At(world, aboveWire).material) {
        Visit(aboveWire);
      }
    }

    /** `create(block)` where the container it returns is not used. */
    method Visit(p: Pos)
      requires Valid()
      modifies this
      decreases world.blocks.Keys - memo.Keys, 1
      ensures Valid() && Grows()
    {
      var x := Create(p);
    }

    /**
     One neighbour of a wire: a wire level with it, one down beside it, or one up over a solid
     block (when nothing is above the wire) is joined; torches, levers and diodes are visited,
     and a diode facing away is fed. Returns the node that carries on.
     */
    method SpreadWire(current: nat, wire: Pos, face: Face, aboveType: Material) returns (next: nat)
      requires Valid() && current < |nodes| && WireClass(nodes[current].kind)
      modifies this
      decreases world.blocks.Keys - memo.Keys, 1
      ensures Valid() && Grows()
      ensures next < |nodes| && WireClass(nodes[next].kind)
    {
      next := current;
      var b := Relative(wire, face);
      var bt := At(world, b).material;
      if bt == RedstoneWire {
        next := ConnectWire(b, current);
      } else if bt == Air {
        var below := Relative(b, Down);
        if At(world, below).material == RedstoneWire {
          next := ConnectWire(below, current);
        }
      } else if IsTorch(bt) || bt == Lever {
        var x := Create(b);
      } else if IsDiode(bt) {
        var facing := At(world, b).facing;
        if facing == face {
          var x := Create(b);
          ConnectTo(current, x);
        } else if Opposite(facing) == face {
          var x := Create(b);
        }
      } else if aboveType == Air && IsSolid(bt) {
        var above := Relative(b, Up);
        if At(world, above).material == RedstoneWire {
          next := ConnectWire(above, current);
        }
        var x := Create(b);
      }
    }

    /** The node each position holds, if any: the value of its container. */
    function Held(ps: seq<Pos>): (r: seq<Option<nat>>)
      reads this
      ensures |r| == |ps|
      ensures forall i :: 0 <= i < |ps| ==> (r[i].Some? <==> ps[i] in memo)
      ensures forall i :: 0 <= i < |ps| && r[i].Some? ==> r[i].value == memo[ps[i]]
    {
      var m := memo;
      seq(|ps|, i requires 0 <= i < |ps| => if ps[i] in m then Some(m[ps[i]]) else None)
    }

    /**
     `createSolid`: visits the solid block's input and output positions, then connects every
     input node to every output node except wire-class to wire-class (see `SolidPairs`). A
     container is the map slot of a position, so the nodes are read from the map after all
     visits and the edges added last are exactly `SolidPairs` of the final map.
     */
    method CreateSolid(comp: nat, p: Pos)
      requires Valid() && comp < |nodes|
      modifies this
      decreases world.blocks.Keys - memo.Keys, 2
      ensures Valid() && Grows()
      ensures !faulted ==>
        var added := SolidPairs(Held(SolidInputs(world, p)), Held(SolidOutputs(world, p)), nodes);
        |added| <= |edges| && edges[|edges| - |added|..] == added
    {
      var inputs := SolidInputs(world, p);
      var outputs := SolidOutputs(world, p);
      VisitAll(inputs);
      VisitAll(outputs);
      ConnectPairs(Held(inputs), Held(outputs));
    }

    /** `create` on each position in turn. */
    method VisitAll(ps: seq<Pos>)
      requires Valid()
      modifies this
      decreases world.blocks.Keys - memo.Keys, 1
      ensures Valid() && Grows()
    {
      for i := 0 to |ps|
        invariant Valid() && Grows()
      {
        var x := Create(ps[i]);
      }
    }

    /**
     The connecting loops of `createSolid`: the edges of `SolidPairs` are added; an empty
     container among the pairs faults.
     */
    method ConnectPairs(ins: seq<Option<nat>>, outs: seq<Option<nat>>)
      requires Valid()
      requires forall i :: 0 <= i < |ins| && ins[i].Some? ==> ins[i].value < |nodes|
      requires forall j :: 0 <= j < |outs| && outs[j].Some? ==> outs[j].value < |nodes|
      modifies this
      ensures Valid() && Grows()
      ensures memo == old(memo) && items == old(items) && nodes == old(nodes) && warned == old(warned)
      ensures faulted == (old(faulted) || (|ins| > 0 && |outs| > 0 && (None in ins || None in outs)))
      ensures !faulted ==> edges == old(edges) + SolidPairs(ins, outs, nodes)
    {
      var added, fault := SolidEdges(ins, outs, nodes);
      edges := edges + added;
      if fault {
        faulted := true;
      }
    }

    /**
     For each input, for each output, an edge unless both are wire-class or the same node;
     `fault` tells whether some pair met an empty container.
     */
    static method SolidEdges(ins: seq<Option<nat>>, outs: seq<Option<nat>>, nodes: seq<Redstone>) returns (added: seq<Edge>, fault: bool)
      requires forall i :: 0 <= i < |ins| && ins[i].Some? ==> ins[i].value < |nodes|
      requires forall j :: 0 <= j < |outs| && outs[j].Some? ==> outs[j].value < |nodes|
      ensures fault == (|ins| > 0 && |outs| > 0 && (None in ins || None in outs))
      ensures !fault ==> added == SolidPairs(ins, outs, nodes)
      ensures forall e :: e in added ==> e.from < |nodes| && e.to < |nodes|
    {
      added, fault := [], false;
      for i := 0 to |ins|
        invariant fault == (i > 0 && |outs| > 0 && (None in ins[..i] || None in outs))
        invariant !fault ==> added == SolidPairs(ins[..i], outs, nodes)
        invariant forall e :: e in added ==> e.from < |nodes| && e.to < |nodes|
      {
        var row, rowFault := RowEdges(ins[i], outs, nodes);
        assert ins[..i + 1] == ins[..i] + [ins[i]];
        added, fault := added + row, fault || rowFault;
      }
      assert ins[..|ins|] == ins;
    }

    /** The inner loop of `createSolid`: the edges from one input to every output. */
    static method RowEdges(a: Option<nat>, outs: seq<Option<nat>>, nodes: seq<Redstone>) returns (row: seq<Edge>, fault: bool)
      requires a.Some? ==> a.value < |nodes|
      requires forall j :: 0 <= j < |outs| && outs[j].Some? ==> outs[j].value < |nodes|
      ensures fault == (|outs| > 0 && (a.None? || None in outs))
      ensures !fault ==> row == SolidRow(a, outs, nodes)
      ensures forall e :: e in row ==> e.from < |nodes| && e.to < |nodes|
    {
      row, fault := [], false;
      for j := 0 to |outs|
        invariant fault == (j > 0 && (a.None? || None in outs[..j]))
        invariant !fault ==> row == SolidRow(a, outs[..j], nodes)
        invariant forall e :: e in row ==> e.from < |nodes| && e.to < |nodes|
      {
        var b := outs[j];
        if a.None? || b.None? {
          fault := true;
        } else if WireClass(nodes[a.value].kind) && WireClass(nodes[b.value].kind) {
          // a wire does not power other wires
        } else if a.value != b.value {
          row := row + [Edge(a.value, b.value)];
        }
        assert outs[..j + 1] == outs[..j] + [outs[j]];
      }
      assert outs[..|outs|] == outs;
    }

    /**
     `create()`: fills from every port, moves the output nodes by the offset `Recentre`
     computes (each coordinate divided by the count, then summed) and makes an initialised
     circuit of them. A
     build that dereferenced an empty position yields None.
     */
    method Build() returns (c: Option<Circuit>)
      requires Valid()
      modifies this
      ensures Valid() && Grows()
      ensures faulted <==> c.None?
      ensures c.Some? ==>
        var es := Snapshot(items, nodes, edges);
        c.value == Index(Number(Circuit("", Translate(es, CentreOf(Xs(es)), CentreOf(Zs(es))), [], map[], false), 0))
    {
      for i := 0 to |ports|
        invariant Valid() && Grows()
      {
        CreateWire(memo[ports[i]], ports[i]);
      }
      var es := Snapshot(items, nodes, edges);
      var midx, midz := Recentre(es);
      var moved := Shift(es, midx, midz);
      if faulted {
        return None;
      }
      var circuit := CircuitBase.Initialize(Circuit("", moved, [], map[], false));
      c := Some(circuit);
    }

    /**
     The centring offset of `create()` as written: each coordinate is divided by the count
     before it is added, so the truncations add up and the result need not centre the nodes
     (see `PerTermCentreMissesCentroid`).
     */
    static method Recentre(es: seq<Redstone>) returns (midx: int, midz: int)
      ensures midx == CentreOf(Xs(es)) && midz == CentreOf(Zs(es))
    {
      midx, midz := 0, 0;
      if |es| == 0 {
        return;
      }
      for i := 0 to |es|
        invariant midx == Centre(Xs(es)[..i], |es|) && midz == Centre(Zs(es)[..i], |es|)
      {
        assert Xs(es)[..i + 1] == Xs(es)[..i] + [es[i].x];
        assert Zs(es)[..i + 1] == Zs(es)[..i] + [es[i].z];
        midx := midx + TruncDiv(es[i].x, |es|);
        midz := midz + TruncDiv(es[i].z, |es|);
      }
      assert Xs(es)[..|es|] == Xs(es) && Zs(es)[..|es|] == Zs(es);
    }

    /**
     The centring offset `create()` is meant to compute, not the one it computes: the
     coordinates are summed and the sums divided by the count once, which leaves the centroid
     within one block of the origin (`MeanCentres`).
     */
    static method Midpoint(es: seq<Redstone>) returns (midx: int, midz: int)
      ensures midx == MeanOf(Xs(es)) && midz == MeanOf(Zs(es))
      ensures |es| > 0 ==> var moved := Translate(es, midx, midz);
        -|es| < Sum(Xs(moved)) < |es| && -|es| < Sum(Zs(moved)) < |es|
    {
      var sumx, sumz := 0, 0;
      for i := 0 to |es|
        invariant sumx == Sum(Xs(es)[..i]) && sumz == Sum(Zs(es)[..i])
      {
        assert Xs(es)[..i + 1][..i] == Xs(es)[..i];
        assert Zs(es)[..i + 1][..i] == Zs(es)[..i];
        sumx, sumz := sumx + es[i].x, sumz + es[i].z;
      }
      assert Xs(es)[..|es|] == Xs(es) && Zs(es)[..|es|] == Zs(es);
      if |es| == 0 {
        midx, midz := 0, 0;
      } else {
        midx, midz := TruncDiv(sumx, |es|), TruncDiv(sumz, |es|);
        MeanCentres(es);
      }
    }

    /** The translating loop of `create()`: every element moved by the offset, in place. */
    static method Shift(es: seq<Redstone>, dx: int, dz: int) returns (moved: seq<Redstone>)
      ensures moved == Translate(es, dx, dz)
    {
      moved := es;
      for i := 0 to |moved|
        invariant |moved| == |es|
        invariant forall k :: 0 <= k < i ==> moved[k] == es[k].(x := es[k].x - dx, z := es[k].z - dz)
        invariant forall k :: i <= k < |es| ==> moved[k] == es[k]
      {
        moved := moved[i := moved[i].(x := moved[i].x - dx, z := moved[i].z - dz)];
      }
    }

    /**
     The instance memo of the port-lookup branch: at most one instance per full circuit name.
     A name with no instance yet gets `created` (what making an instance of that circuit
     yields, possibly nothing), which is recorded under the name.
     */
    method InstanceFor(fullName: string, created: Option<Circuit>) returns (ci: Option<Circuit>)
      modifies this`subcircuits
      ensures fullName in old(subcircuits) && old(subcircuits[fullName]).Some? ==>
        ci == old(subcircuits[fullName]) && subcircuits == old(subcircuits)
      ensures !(fullName in old(subcircuits) && old(subcircuits[fullName]).Some?) ==>
        ci == created && subcircuits == old(subcircuits)[fullName := created]
    {
      ci := if fullName in subcircuits then subcircuits[fullName] else None;
      if ci.None? {
        ci := created;
        subcircuits := subcircuits[fullName := ci];
      }
    }
  }
}
