/**
 The circuit engine of `CircuitBase`: stepping the simulation, numbering the elements of
 the whole tree, building the port index, looking elements up by id and removing them.

 A circuit exclusively owns its subcircuit instances, so each operation is a method on
 the circuit value that returns the updated circuit; the loops are the source's loops.
 */
module CircuitBase {
  import opened Elements
  import opened CircuitTree

  /** `doPhysics()`: every local element ticks, in array order, then each subcircuit
      ticks, in order. An element's own tick is outside this model; the returned trace
      records which elements ticked and in which order. */
  method DoPhysics(c: Circuit, trace: seq<Redstone>) returns (ticked: seq<Redstone>)
    ensures ticked == trace + Flatten(c)
    decreases c
  {
    ticked := trace;
    for i := 0 to |c.elements|
      invariant ticked == trace + c.elements[..i]
    {
      ticked := ticked + [c.elements[i]];
    }
    assert c.elements[..|c.elements|] == c.elements;
    for k := 0 to |c.subcircuits|
      invariant ticked == trace + c.elements + FlattenAll(c.subcircuits[..k])
    {
      assert c.subcircuits[..k + 1][..k] == c.subcircuits[..k];
      ticked := DoPhysics(c.subcircuits[k], ticked);
    }
    assert c.subcircuits[..|c.subcircuits|] == c.subcircuits;
  }

  /** On an initialised circuit one tick visits the elements of the whole tree in id order:
      the k-th element to tick carries the id k and is the k-th element of the tree's
      pre-order before it was numbered. */
  lemma TickFollowsIds(c: Circuit, ticked: seq<Redstone>)
    requires ticked == Flatten(Index(Number(c, 0)))
    ensures |ticked| == |Flatten(c)|
    ensures forall k :: 0 <= k < |ticked| ==> ticked[k].id == k && ticked[k] == Flatten(c)[k].(id := k)
  {
    NumberFlattens(c, 0);
    IndexKeepsElements(Number(c, 0));
  }

  /** `generateIds(start)`: the tree is numbered in pre-order from `start`, and the
      result is `start` plus the number of elements in the tree. */
  method GenerateIds(c: Circuit, start: int) returns (r: Circuit, next: int)
    ensures r == Number(c, start)
    ensures next == start + |Flatten(c)|
    decreases c, 1
  {
    var es := c.elements;
    next := start;
    for i := 0 to |es|
      invariant next == start + i
      invariant es == Relabel(c.elements[..i], start) + c.elements[i..]
    {
      es := es[i := es[i].(id := next)];
      next := next + 1;
    }
    assert c.elements[..|c.elements|] == c.elements;
    var subs;
    subs, next := GenerateIdsAll(c.subcircuits, next);
    r := c.(elements := es, subcircuits := subs);
  }

  /** The subcircuit loop of `generateIds`: each subcircuit in turn is numbered from where the
      previous one stopped, in place. */
  method GenerateIdsAll(ts: seq<Circuit>, start: int) returns (r: seq<Circuit>, next: int)
    ensures r == NumberAll(ts, start)
    ensures next == start + |FlattenAll(ts)|
    decreases ts, 0
  {
    ghost var numbered := NumberAll(ts, start);
    NumberAllLength(ts, start);
    r, next := ts, start;
    for k := 0 to |r|
      invariant |r| == |ts|
      invariant next == start + |FlattenAll(ts[..k])|
      invariant forall j :: 0 <= j < |r| ==> r[j] == if j < k then numbered[j] else ts[j]
    {
      NextSubNumbered(ts, k, start);
      var sub;
      sub, next := GenerateIds(r[k], next);
      r := r[k := sub];
    }
    assert ts[..|ts|] == ts;
  }

  /** Numbering a list one circuit at a time: the k-th circuit is numbered from where the
      circuits before it stop, and the next one starts after it. */
  lemma NextSubNumbered(ts: seq<Circuit>, k: nat, start: int)
    requires k < |ts|
    ensures |NumberAll(ts, start)| == |ts|
    ensures NumberAll(ts, start)[k] == Number(ts[k], start + |FlattenAll(ts[..k])|)
    ensures |FlattenAll(ts[..k + 1])| == |FlattenAll(ts[..k])| + |Flatten(ts[k])|
  {
    NumberAllAt(ts, k, start);
    assert ts[..k + 1][..k] == ts[..k];
  }

  lemma {:induction false} NumberAllAt(ts: seq<Circuit>, k: nat, start: int)
    requires k < |ts|
    ensures |NumberAll(ts, start)| == |ts|
    ensures NumberAll(ts, start)[k] == Number(ts[k], start + |FlattenAll(ts[..k])|)
    decreases |ts|
  {
    var init := ts[..|ts| - 1];
    if k < |ts| - 1 {
      NumberAllAt(init, k, start);
      assert init[..k] == ts[..k];
    } else {
      assert init == ts[..k];
      NumberAllLength(init, start);
    }
  }

  lemma {:induction false} NumberAllLength(ts: seq<Circuit>, start: int)
    ensures |NumberAll(ts, start)| == |ts|
    decreases |ts|
  {
    if ts != [] {
      NumberAllLength(ts[..|ts| - 1], start);
    }
  }

  /** `initialize()`: afterwards every circuit of the tree is initialised with a current
      port index, and the pre-order of the tree carries the ids 0, 1, 2, ... and is
      otherwise the one before. */
  method Initialize(c: Circuit) returns (r: Circuit)
    ensures r == Index(Number(c, 0))
    ensures Indexed(r)
    ensures Flatten(r) == Relabel(Flatten(c), 0)
  {
    r := InitializeTree(c, true);
    IndexIsIdempotent(Number(c, 0));
    IndexKeepsElements(Number(c, 0));
    NumberFlattens(c, 0);
  }

  /** Initialising a root twice is initialising it once: the second call renumbers the tree
      with the ids it already carries and rebuilds the same port indexes. */
  lemma InitializeIdempotent(c: Circuit)
    ensures Index(Number(Index(Number(c, 0)), 0)) == Index(Number(c, 0))
  {
    IndexAfterNumber(Number(c, 0), 0);
    NumberTwice(c, 0, 0);
  }

  /** Numbering an already numbered tree only counts from the new start. */
  lemma {:induction false} NumberTwice(c: Circuit, s: int, t: int)
    ensures Number(Number(c, s), t) == Number(c, t)
    decreases c, 1
  {
    NumberAllTwice(c.subcircuits, s + |c.elements|, t + |c.elements|);
    assert Relabel(Relabel(c.elements, s), t) == Relabel(c.elements, t);
  }

  lemma {:induction false} NumberAllTwice(ts: seq<Circuit>, s: int, t: int)
    ensures NumberAll(NumberAll(ts, s), t) == NumberAll(ts, t)
    decreases ts, 0
  {
    if ts != [] {
      var init, last := ts[..|ts| - 1], ts[|ts| - 1];
      var n := NumberAll(ts, s);
      assert n[..|n| - 1] == NumberAll(init, s);
      NumberAllTwice(init, s, t);
      NumberAllFlattens(init, s);
      NumberTwice(last, s + |FlattenAll(init)|, t + |FlattenAll(init)|);
    }
  }

  /** Indexes built before numbering are rebuilt by the indexing after it: the earlier
      indexing leaves no trace. */
  lemma {:induction false} IndexAfterNumber(y: Circuit, s: int)
    ensures Index(Number(Index(y), s)) == Index(Number(y, s))
    decreases y, 1
  {
    var ys, xs, o := y.subcircuits, Index(y).subcircuits, s + |y.elements|;
    NumberAllLength(xs, o);
    NumberAllLength(ys, o);
    forall k | 0 <= k < |ys|
      ensures Index(NumberAll(xs, o)[k]) == Index(NumberAll(ys, o)[k])
    {
      IndexAfterNumberAt(xs, ys, k, o);
    }
    var l, r := Index(Number(Index(y), s)), Index(Number(y, s));
    assert forall k :: 0 <= k < |l.subcircuits| ==> l.subcircuits[k] == r.subcircuits[k];
  }

  /** The same for the k-th of a list of subcircuits, numbered from where the ones before it stop. */
  lemma {:induction false} IndexAfterNumberAt(xs: seq<Circuit>, ys: seq<Circuit>, k: nat, o: int)
    requires |xs| == |ys| && k < |ys|
    requires forall j :: 0 <= j < |ys| ==> xs[j] == Index(ys[j])
    ensures |NumberAll(xs, o)| == |xs| && |NumberAll(ys, o)| == |ys|
    ensures Index(NumberAll(xs, o)[k]) == Index(NumberAll(ys, o)[k])
    decreases ys, 0
  {
    NumberAllAt(xs, k, o);
    NumberAllAt(ys, k, o);
    IndexedPrefixFlattens(xs, ys, k);
    var start := o + |FlattenAll(ys[..k])|;
    assert NumberAll(xs, o)[k] == Number(Index(ys[k]), start);
    assert NumberAll(ys, o)[k] == Number(ys[k], start);
    IndexAfterNumber(ys[k], start);
  }

  /** Indexed circuits flatten as the circuits they came from. */
  lemma IndexedPrefixFlattens(xs: seq<Circuit>, ys: seq<Circuit>, k: nat)
    requires |xs| == |ys| && k <= |ys|
    requires forall j :: 0 <= j < |ys| ==> xs[j] == Index(ys[j])
    ensures FlattenAll(xs[..k]) == FlattenAll(ys[..k])
  {
    forall j | 0 <= j < k
      ensures Flatten(xs[..k][j]) == Flatten(ys[..k][j])
    {
      IndexKeepsElements(ys[j]);
    }
    FlattenAllPointwise(xs[..k], ys[..k]);
  }

  /** `initialize(generateIds)`. The source fills the port index before the root numbers
      the tree, but index and array share the element objects, so the index sees the new
      ids; elements being values here, the ids are given out first, which leaves the same
      final state. `setCircuit` and `onPowerChange` are outside this model. */
  method InitializeTree(c: Circuit, generateIds: bool) returns (r: Circuit)
    ensures r == Index(if generateIds then Number(c, 0) else c)
    decreases Height(c), if generateIds then 1 else 0
  {
    var cur := c;
    if generateIds {
      var count;
      cur, count := GenerateIds(c, 0);
      NumberKeepsHeight(c, 0);
    }
    SubsAreLower(cur);
    var ports: map<string, Redstone> := map[];
    for i := 0 to |cur.elements|
      invariant ports == PortIndex(cur.elements[..i])
    {
      var e := cur.elements[i];
      assert cur.elements[..i + 1][..i] == cur.elements[..i];
      if e.kind.Port? {
        ports := ports[e.kind.name := e];
      }
    }
    assert cur.elements[..|cur.elements|] == cur.elements;
    var subs := cur.subcircuits;
    for k := 0 to |subs|
      invariant |subs| == |cur.subcircuits|
      invariant forall j :: 0 <= j < |subs| ==> subs[j] == if j < k then Index(cur.subcircuits[j]) else cur.subcircuits[j]
    {
      var sub := InitializeTree(subs[k], false);
      subs := subs[k := sub];
    }
    r := cur.(ports := ports, subcircuits := subs, initialized := true);
  }

  /** The number of levels of a circuit tree; it bounds the recursion of `initialize`. */
  function Height(c: Circuit): nat
    decreases c, 1
  {
    1 + HeightAll(c.subcircuits)
  }

  function HeightAll(ts: seq<Circuit>): nat
    decreases ts, 0
  {
    if ts == [] then 0
    else
      var h, g := HeightAll(ts[..|ts| - 1]), Height(ts[|ts| - 1]);
      if h < g then g else h
  }

  lemma {:induction false} SubsAreLower(c: Circuit)
    ensures forall k :: 0 <= k < |c.subcircuits| ==> Height(c.subcircuits[k]) < Height(c)
  {
    forall k | 0 <= k < |c.subcircuits| ensures Height(c.subcircuits[k]) <= HeightAll(c.subcircuits) {
      HeightAllBounds(c.subcircuits, k);
    }
  }

  lemma {:induction false} HeightAllBounds(ts: seq<Circuit>, k: nat)
    requires k < |ts|
    ensures Height(ts[k]) <= HeightAll(ts)
    decreases |ts|
  {
    if k < |ts| - 1 {
      HeightAllBounds(ts[..|ts| - 1], k);
    }
  }

  /** Numbering changes ids only, so the tree keeps its height. */
  lemma {:induction false} NumberKeepsHeight(c: Circuit, start: int)
    ensures Height(Number(c, start)) == Height(c)
    decreases c, 1
  {
    NumberAllKeepsHeight(c.subcircuits, start + |c.elements|);
  }

  lemma {:induction false} NumberAllKeepsHeight(ts: seq<Circuit>, start: int)
    ensures HeightAll(NumberAll(ts, start)) == HeightAll(ts)
    decreases ts, 0
  {
    if ts != [] {
      var init := ts[..|ts| - 1];
      var n := NumberAll(ts, start);
      NumberAllKeepsHeight(init, start);
      NumberKeepsHeight(ts[|ts| - 1], start + |FlattenAll(init)|);
      assert n[..|n| - 1] == NumberAll(init, start);
    }
  }

  /** `getPort(name)`: while the index is current, a Port of that name is found exactly
      when the array holds one, and it is the last one of the array. */
  function GetPort(c: Circuit, name: string): (r: Option<Redstone>)
    ensures c.ports == PortIndex(c.elements) ==>
      (r.Some? <==> exists i :: 0 <= i < |c.elements| && c.elements[i].kind == Port(name))
    ensures c.ports == PortIndex(c.elements) && r.Some? ==>
      exists i :: LastPortNamed(c.elements, name, i) && r.value == c.elements[i]
  {
    PortIndexHasPorts(c.elements, name);
    PortIndexHoldsLastPorts(c.elements, name);
    if name in c.ports then Some(c.ports[name]) else None
  }

  /** `getPorts()`: while the index is current, exactly the Ports of the array that no
      later Port of the same name replaces. */
  function GetPorts(c: Circuit): (r: set<Redstone>)
    ensures c.ports == PortIndex(c.elements) ==> forall p ::
      p in r <==> p.kind.Port? && exists i :: LastPortNamed(c.elements, p.kind.name, i) && c.elements[i] == p
  {
    PortIndexValues(c.elements);
    c.ports.Values
  }

  /** `getElement(id)`: beyond the local array, the first element of a direct subcircuit
      whose id is `id`, or null; within it, the local element at index `id`; a negative
      id indexes the array out of bounds. */
  method GetElement(c: Circuit, id: int) returns (r: Answer)
    ensures r == Lookup(c, id)
  {
    if id >= |c.elements| {
      var subs := c.subcircuits;
      for k := 0 to |subs|
        invariant FirstWithId(SubLocals(subs[..k]), id) == None
      {
        var sub := subs[k];
        assert subs[..k + 1][..k] == subs[..k];
        for j := 0 to |sub.elements|
          invariant FirstWithId(SubLocals(subs[..k]) + sub.elements[..j], id) == None
        {
          if sub.elements[j].id == id {
            r := Found(sub.elements[j]);
            FoundInSub(c, k, j, id);
            return;
          }
          FirstWithIdAppend(SubLocals(subs[..k]) + sub.elements[..j], [sub.elements[j]], id);
          assert sub.elements[..j + 1] == sub.elements[..j] + [sub.elements[j]];
        }
        assert sub.elements == sub.elements[..|sub.elements|];
      }
      assert subs[..|subs|] == subs;
      r := NotFound;
    } else if id < 0 {
      r := IndexOutOfBounds;
    } else {
      r := Found(c.elements[id]);
    }
  }

  /** The search of `getElement` stops at the first element of a direct subcircuit that
      carries the id. */
  lemma FoundInSub(c: Circuit, k: nat, j: nat, id: int)
    requires k < |c.subcircuits| && j < |c.subcircuits[k].elements|
    requires c.subcircuits[k].elements[j].id == id && id >= |c.elements|
    requires FirstWithId(SubLocals(c.subcircuits[..k]) + c.subcircuits[k].elements[..j], id) == None
    ensures Lookup(c, id) == Found(c.subcircuits[k].elements[j])
  {
    var subs, es := c.subcircuits, c.subcircuits[k].elements;
    var a := SubLocals(subs[..k]) + es[..j];
    var head := SubLocals(subs[..k + 1]);
    FirstWithIdAppend(a, [es[j]], id);
    assert FirstWithId([es[j]], id) == Some(es[j]);
    FirstWithIdAppend(a + [es[j]], es[j + 1..], id);
    HeadOfSubLocals(subs, k, j);
    SubLocalsSplit(subs, k + 1);
    FirstWithIdAppend(head, SubLocals(subs[k + 1..]), id);
  }

  /** The locals of the first k + 1 subcircuits, cut around element j of subcircuit k. */
  lemma HeadOfSubLocals(subs: seq<Circuit>, k: nat, j: nat)
    requires k < |subs| && j < |subs[k].elements|
    ensures SubLocals(subs[..k + 1]) ==
      SubLocals(subs[..k]) + subs[k].elements[..j] + [subs[k].elements[j]] + subs[k].elements[j + 1..]
  {
    var es := subs[k].elements;
    assert subs[..k + 1][..k] == subs[..k];
    assert SubLocals(subs[..k + 1]) == SubLocals(subs[..k]) + es;
    assert es == es[..j] + [es[j]] + es[j + 1..];
  }

  /** SubLocals of a list splits at any point. */
  lemma {:induction false} SubLocalsSplit(ts: seq<Circuit>, k: nat)
    requires k <= |ts|
    ensures SubLocals(ts) == SubLocals(ts[..k]) + SubLocals(ts[k..])
    decreases |ts|
  {
    if k < |ts| {
      var init := ts[..|ts| - 1];
      SubLocalsSplit(init, k);
      assert init[..k] == ts[..k];
      assert ts[k..][..|ts[k..]| - 1] == init[k..];
    } else {
      assert ts[..k] == ts;
      assert ts[k..] == [];
    }
  }

  /** `getElement(guide)`: the answer for the guide's id. */
  method GetElementOf(c: Circuit, guide: Redstone) returns (r: Answer)
    ensures r == Lookup(c, guide.id)
  {
    r := GetElement(c, guide.id);
  }

  /** `removeElement(element)`: the first element with the same identity is cut out of
      the array, the others keeping their order; when there is none, nothing changes. Ids
      and the port index are not touched until the next `initialize`. */
  method RemoveElement(c: Circuit, element: Redstone) returns (r: Circuit)
    ensures match FindRef(c.elements, element.ref)
      case None => r == c
      case Some(i) => r == c.(elements := Without(c.elements, i))
  {
    for i := 0 to |c.elements|
      invariant forall j :: 0 <= j < i ==> c.elements[j].ref != element.ref
    {
      if c.elements[i].ref == element.ref {
        assert FindRef(c.elements, element.ref) == Some(i) by {
          var f := FindRef(c.elements, element.ref);
          assert f.Some? && f.value == i;
        }
        r := RemoveAt(c, i);
        return;
      }
    }
    r := c;
  }

  /** Removal takes out exactly one element carrying the identity, when there is one, and
      keeps every other element. */
  lemma RemovalTakesOutOne(es: seq<Redstone>, ref: nat)
    ensures match FindRef(es, ref)
      case None => forall e :: e in es ==> e.ref != ref
      case Some(i) => es[i].ref == ref && multiset(Without(es, i)) + multiset{es[i]} == multiset(es)
  {
    match FindRef(es, ref)
    case None =>
    case Some(i) => WithoutShifts(es, i);
  }

  /** `removeElement(index)`: a new array, one shorter, holding the old one without
      index `index`, the rest in the same order. */
  method RemoveAt(c: Circuit, index: nat) returns (r: Circuit)
    requires index < |c.elements|
    ensures r == c.(elements := Without(c.elements, index))
  {
    var es := c.elements;
    var newElements := new Redstone[|es| - 1];
    for i := 0 to index
      invariant newElements[..i] == es[..i]
    {
      newElements[i] := es[i];
    }
    for i := index to newElements.Length
      invariant newElements[..index] == es[..index]
      invariant forall j :: index <= j < i ==> newElements[j] == es[j + 1]
    {
      newElements[i] := es[i + 1];
    }
    assert newElements[..] == Without(es, index);
    r := c.(elements := newElements[..]);
  }
}
