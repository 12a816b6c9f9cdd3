/**
 Pure definitions the graph builder is specified with: the delay rule, the starting state of a
 newly classified node, the merge of one node into another (the position map and the edge list
 are redirected, the node leaves the output list), the edge set a solid block adds, and the
 recentring translation.
 */
module CreatorSpec {
  import opened Elements
  import opened World

  /** Tick delay of a redstone torch; a diode's delay is its setting times this. */
  const TorchDelay := 2

  /** A directed connection `from -> to` between two nodes, named by their refs. */
  datatype Edge = Edge(from: nat, to: nat)

  /** `isType(0, 3)`: the node is wire-class (a plain wire or a port). */
  predicate WireClass(k: Kind)
  {
    k.Wire? || k.Port?
  }

  /** The diode setting (1 to 4) encoded in the upper two bits of its data value. */
  function DiodeSetting(data: Nibble): (s: int)
    ensures 1 <= s <= 4
  {
    data / 4 + 1
  }

  /** The delay given to the node at `p` of material `m`. */
  function GetDelay(delays: map<Pos, int>, w: World, p: Pos, m: Material): (d: int)
    ensures p in delays ==> d == delays[p]
    ensures p !in delays ==> 0 <= d <= 4 * TorchDelay && d % TorchDelay == 0
    ensures p !in delays ==> (d > 0 <==> IsTorch(m) || IsDiode(m))
  {
    if p in delays then delays[p]
    else if IsTorch(m) then TorchDelay
    else if IsDiode(m) then DiodeSetting(At(w, p).data) * TorchDelay
    else 0
  }

  /**
   The node `create(block)` makes at an unclassified position `p`, under the ref `ref`, or
   None when the material there is not classified by it.
   */
  function Classify(delays: map<Pos, int>, w: World, p: Pos, ref: nat): Option<Redstone>
  {
    var b := At(w, p);
    if IsTorch(b.material) then
      Some(Redstone(ref, 0, Inverter, p.x, p.z, b.material == TorchOff, GetDelay(delays, w, p, b.material), [], []))
    else if IsDiode(b.material) then
      Some(Redstone(ref, 0, Repeater, p.x, p.z, b.material == DiodeOn, GetDelay(delays, w, p, b.material), [], []))
    else if b.material == RedstoneWire then
      Some(Redstone(ref, 0, Wire, p.x, p.z, b.data > 0, 0, [], []))
    else if IsSolid(b.material) then
      Some(Redstone(ref, 0, SolidComponent, p.x, p.z, false, 0, [], []))
    else
      None
  }

  /** Powered start states: an off torch and an on diode are powered, a wire when its data is non-zero. */
  lemma ClassifiedStartState(delays: map<Pos, int>, w: World, p: Pos, ref: nat)
    ensures Classify(delays, w, p, ref).Some? <==>
      IsTorch(At(w, p).material) || IsDiode(At(w, p).material) || At(w, p).material == RedstoneWire || IsSolid(At(w, p).material)
    ensures Classify(delays, w, p, ref).Some? ==>
      var n := Classify(delays, w, p, ref).value;
      n.ref == ref && n.inputs == [] && n.outputs == [] &&
      (n.powered <==> At(w, p).material in {TorchOff, DiodeOn} || (At(w, p).material == RedstoneWire && At(w, p).data > 0)) &&
      (n.delay != 0 ==> n.kind.Inverter? || n.kind.Repeater? || p in delays)
  {
  }

  /** `RedstoneMap.merge(from, to)`: every position mapped to `from` is mapped to `to`. */
  function Redirect(memo: map<Pos, nat>, from: nat, to: nat): map<Pos, nat>
  {
    map p | p in memo :: if memo[p] == from then to else memo[p]
  }

  function Renamed(r: nat, from: nat, to: nat): nat
  {
    if r == from then to else r
  }

  /** `Redstone.transfer`: every edge naming `from` at either end names `to` instead. */
  function RedirectEdges(edges: seq<Edge>, from: nat, to: nat): seq<Edge>
  {
    seq(|edges|, i requires 0 <= i < |edges| => Edge(Renamed(edges[i].from, from, to), Renamed(edges[i].to, from, to)))
  }

  /** After a merge no position and no edge names the merged node; everything else is kept. */
  lemma MergeLeavesNoTrace(memo: map<Pos, nat>, edges: seq<Edge>, from: nat, to: nat)
    requires from != to
    ensures Redirect(memo, from, to).Keys == memo.Keys
    ensures from !in Redirect(memo, from, to).Values
    ensures forall p :: p in memo && memo[p] != from ==> Redirect(memo, from, to)[p] == memo[p]
    ensures forall p :: p in memo && memo[p] == from ==> Redirect(memo, from, to)[p] == to
    ensures |RedirectEdges(edges, from, to)| == |edges|
    ensures forall e :: e in RedirectEdges(edges, from, to) ==> e.from != from && e.to != from
    ensures forall i :: 0 <= i < |edges| && edges[i].from != from && edges[i].to != from ==> RedirectEdges(edges, from, to)[i] == edges[i]
  {
    var r := Redirect(memo, from, to);
    assert forall p :: p in r ==> r[p] != from;
  }

  /** `ArrayList.remove(Object)`: the first occurrence of `x` is deleted, if there is one. */
  function RemoveFirst(s: seq<nat>, x: nat): (r: seq<nat>)
    decreases |s|
  {
    if |s| == 0 then []
    else if s[0] == x then s[1..]
    else [s[0]] + RemoveFirst(s[1..], x)
  }

  predicate Distinct(s: seq<nat>)
  {
    forall i, j :: 0 <= i < j < |s| ==> s[i] != s[j]
  }

  /** Removing takes out exactly one occurrence of the node and nothing else. */
  lemma {:induction false} RemoveFirstTakesOut(s: seq<nat>, x: nat)
    decreases |s|
    ensures multiset(RemoveFirst(s, x)) == multiset(s) - multiset{x}
  {
    if |s| > 0 {
      assert s == [s[0]] + s[1..];
      if s[0] != x {
        RemoveFirstTakesOut(s[1..], x);
      }
    }
  }

  /** From a list without repeats, removal leaves a list without repeats that lacks the node. */
  lemma {:induction false} RemoveFirstKeepsDistinct(s: seq<nat>, x: nat)
    requires Distinct(s)
    decreases |s|
    ensures Distinct(RemoveFirst(s, x))
    ensures x !in RemoveFirst(s, x)
    ensures forall y :: y in s && y != x ==> y in RemoveFirst(s, x)
  {
    if |s| > 0 {
      assert Distinct(s[1..]) by {
        forall i, j | 0 <= i < j < |s[1..]|
          ensures s[1..][i] != s[1..][j]
        {
          assert s[1..][i] == s[i + 1] && s[1..][j] == s[j + 1];
        }
      }
      assert forall k :: 0 <= k < |s[1..]| ==> s[1..][k] != s[0];
      if s[0] != x {
        RemoveFirstKeepsDistinct(s[1..], x);
        RemoveFirstTakesOut(s[1..], x);
        var t := RemoveFirst(s[1..], x);
        assert s[0] !in s[1..];
        assert s[0] !in multiset(s[1..]);
        assert s[0] !in multiset(t);
        assert s[0] !in t;
        assert RemoveFirst(s, x) == [s[0]] + t;
        forall i, j | 0 <= i < j < |[s[0]] + t|
          ensures ([s[0]] + t)[i] != ([s[0]] + t)[j]
        {
          assert ([s[0]] + t)[j] == t[j - 1];
          if i > 0 {
            assert ([s[0]] + t)[i] == t[i - 1];
          }
        }
        forall y | y in s && y != x
          ensures y in RemoveFirst(s, x)
        {
          if y != s[0] {
            assert y in s[1..];
          }
        }
      }
    }
  }

  /**
   The edges one solid-block input node adds towards each of the outputs (the inner loop of
   `createSolid`): none when either container is empty, none from a wire-class node to a
   wire-class node, and none from a node to itself.
   */
  function PairEdge(a: Option<nat>, b: Option<nat>, nodes: seq<Redstone>): seq<Edge>
  {
    if a.None? || b.None? || a.value >= |nodes| || b.value >= |nodes| then []
    else if WireClass(nodes[a.value].kind) && WireClass(nodes[b.value].kind) then []
    else if a.value == b.value then []
    else [Edge(a.value, b.value)]
  }

  function SolidRow(a: Option<nat>, outs: seq<Option<nat>>, nodes: seq<Redstone>): seq<Edge>
    decreases |outs|
  {
    if |outs| == 0 then [] else SolidRow(a, outs[..|outs| - 1], nodes) + PairEdge(a, outs[|outs| - 1], nodes)
  }

  /** All edges `createSolid` adds, in the order of its nested loops. */
  function SolidPairs(ins: seq<Option<nat>>, outs: seq<Option<nat>>, nodes: seq<Redstone>): seq<Edge>
    decreases |ins|
  {
    if |ins| == 0 then [] else SolidPairs(ins[..|ins| - 1], outs, nodes) + SolidRow(ins[|ins| - 1], outs, nodes)
  }

  /** A pair that is connected: both present, distinct, and not both wire-class. */
  predicate Connects(a: nat, b: nat, nodes: seq<Redstone>)
  {
    a < |nodes| && b < |nodes| && a != b && !(WireClass(nodes[a].kind) && WireClass(nodes[b].kind))
  }

  lemma {:induction false} SolidRowSpec(a: Option<nat>, outs: seq<Option<nat>>, nodes: seq<Redstone>, e: Edge)
    decreases |outs|
    ensures e in SolidRow(a, outs, nodes) <==>
      a == Some(e.from) && Connects(e.from, e.to, nodes) && Some(e.to) in outs
  {
    if |outs| > 0 {
      var init := outs[..|outs| - 1];
      SolidRowSpec(a, init, nodes, e);
      assert outs == init + [outs[|outs| - 1]];
    }
  }

  /**
   `createSolid` connects every input to every output, except a wire-class input to a
   wire-class output and a node to itself.
   */
  lemma {:induction false} SolidPairsSpec(ins: seq<Option<nat>>, outs: seq<Option<nat>>, nodes: seq<Redstone>, e: Edge)
    decreases |ins|
    ensures e in SolidPairs(ins, outs, nodes) <==>
      Some(e.from) in ins && Some(e.to) in outs && Connects(e.from, e.to, nodes)
  {
    if |ins| > 0 {
      var init := ins[..|ins| - 1];
      SolidPairsSpec(init, outs, nodes, e);
      SolidRowSpec(ins[|ins| - 1], outs, nodes, e);
      assert ins == init + [ins[|ins| - 1]];
    }
  }

  /** Java's `int` division, which truncates toward zero. */
  function TruncDiv(a: int, n: int): (q: int)
    requires n > 0
    ensures a >= 0 ==> q * n <= a < q * n + n
    ensures a < 0 ==> q * n - n < a <= q * n
  {
    if a >= 0 then a / n else -((-a) / n)
  }

  /** The centre offset of `create()`: the sum of each coordinate divided by the count. */
  function Centre(xs: seq<int>, n: int): int
    requires n > 0
    decreases |xs|
  {
    if |xs| == 0 then 0 else Centre(xs[..|xs| - 1], n) + TruncDiv(xs[|xs| - 1], n)
  }

  function Xs(es: seq<Redstone>): seq<int>
  {
    seq(|es|, i requires 0 <= i < |es| => es[i].x)
  }

  function Zs(es: seq<Redstone>): seq<int>
  {
    seq(|es|, i requires 0 <= i < |es| => es[i].z)
  }

  /** The offset `create()` recentres by: zero for no elements. */
  function CentreOf(xs: seq<int>): int
  {
    if |xs| == 0 then 0 else Centre(xs, |xs|)
  }

  /** The sum of the coordinates. */
  function Sum(xs: seq<int>): int
    decreases |xs|
  {
    if |xs| == 0 then 0 else Sum(xs[..|xs| - 1]) + xs[|xs| - 1]
  }

  /** The offset that centres the coordinates: their mean, truncated toward zero, taken once
      (zero for no elements). */
  function MeanOf(xs: seq<int>): int
  {
    if |xs| == 0 then 0 else TruncDiv(Sum(xs), |xs|)
  }

  /** Dividing each term before summing does not centre: three elements at x = 2 are not
      moved, and their coordinates still sum to 6, twice the count; the mean moves them to 0. */
  lemma PerTermCentreMissesCentroid()
    ensures CentreOf([2, 2, 2]) == 0
    ensures Sum([2, 2, 2]) - 3 * CentreOf([2, 2, 2]) == 6
    ensures MeanOf([2, 2, 2]) == 2 && Sum([2, 2, 2]) - 3 * MeanOf([2, 2, 2]) == 0
  {
    assert [2, 2, 2][..2] == [2, 2] && [2, 2][..1] == [2] && [2][..0] == [];
  }

  /** Moving every coordinate by `d` moves their sum by the count times `d`. */
  lemma {:induction false} SumShifted(xs: seq<int>, d: int)
    decreases |xs|
    ensures Sum(seq(|xs|, i requires 0 <= i < |xs| => xs[i] - d)) == Sum(xs) - |xs| * d
  {
    if |xs| > 0 {
      var init := xs[..|xs| - 1];
      var s := seq(|xs|, i requires 0 <= i < |xs| => xs[i] - d);
      SumShifted(init, d);
      assert s[..|s| - 1] == seq(|init|, i requires 0 <= i < |init| => init[i] - d);
      assert |xs| * d == |init| * d + d;
    }
  }

  /** Moving the elements by the mean of each coordinate leaves each coordinate sum within
      one count of zero: the centroid lies less than one block from the origin. */
  lemma MeanCentres(es: seq<Redstone>)
    requires |es| > 0
    ensures var moved := Translate(es, MeanOf(Xs(es)), MeanOf(Zs(es)));
      -|es| < Sum(Xs(moved)) < |es| && -|es| < Sum(Zs(moved)) < |es|
  {
    var dx, dz := MeanOf(Xs(es)), MeanOf(Zs(es));
    var moved := Translate(es, dx, dz);
    assert Xs(moved) == seq(|es|, i requires 0 <= i < |es| => Xs(es)[i] - dx);
    assert Zs(moved) == seq(|es|, i requires 0 <= i < |es| => Zs(es)[i] - dz);
    SumShifted(Xs(es), dx);
    SumShifted(Zs(es), dz);
  }

  /** Every element moved by one and the same offset. */
  function Translate(es: seq<Redstone>, dx: int, dz: int): seq<Redstone>
  {
    seq(|es|, i requires 0 <= i < |es| => es[i].(x := es[i].x - dx, z := es[i].z - dz))
  }

  /** Recentring moves elements rigidly: every pairwise offset and everything but the position is kept. */
  lemma TranslateIsRigid(es: seq<Redstone>, dx: int, dz: int)
    ensures |Translate(es, dx, dz)| == |es|
    ensures forall i, j :: 0 <= i < |es| && 0 <= j < |es| ==>
      Translate(es, dx, dz)[i].x - Translate(es, dx, dz)[j].x == es[i].x - es[j].x &&
      Translate(es, dx, dz)[i].z - Translate(es, dx, dz)[j].z == es[i].z - es[j].z
    ensures forall i :: 0 <= i < |es| ==> Translate(es, dx, dz)[i].(x := es[i].x, z := es[i].z) == es[i]
  {
  }

  /** The outputs of node `r`: the targets of its edges, in edge order. */
  function OutputsOf(edges: seq<Edge>, r: nat): seq<nat>
    decreases |edges|
  {
    if |edges| == 0 then []
    else OutputsOf(edges[..|edges| - 1], r) + (if edges[|edges| - 1].from == r then [edges[|edges| - 1].to] else [])
  }

  /** The inputs of node `r`: the sources of its edges, in edge order. */
  function InputsOf(edges: seq<Edge>, r: nat): seq<nat>
    decreases |edges|
  {
    if |edges| == 0 then []
    else InputsOf(edges[..|edges| - 1], r) + (if edges[|edges| - 1].to == r then [edges[|edges| - 1].from] else [])
  }

  /** Edge lists and per-node input/output lists describe the same graph. */
  lemma {:induction false} AdjacencyMatchesEdges(edges: seq<Edge>, a: nat, b: nat)
    decreases |edges|
    ensures b in OutputsOf(edges, a) <==> Edge(a, b) in edges
    ensures a in InputsOf(edges, b) <==> Edge(a, b) in edges
  {
    if |edges| > 0 {
      var init := edges[..|edges| - 1];
      AdjacencyMatchesEdges(init, a, b);
      assert edges == init + [edges[|edges| - 1]];
    }
  }

  /** The element records of the listed nodes, each carrying its edges. */
  function Snapshot(items: seq<nat>, nodes: seq<Redstone>, edges: seq<Edge>): seq<Redstone>
    requires forall i :: 0 <= i < |items| ==> items[i] < |nodes|
  {
    seq(|items|, i requires 0 <= i < |items| => nodes[items[i]].(inputs := InputsOf(edges, items[i]), outputs := OutputsOf(edges, items[i])))
  }
}
