/**
 A circuit as a value: its name, its element array, its subcircuit instances, its
 name-to-Port index and its initialised flag. The functions here are the specifications
 the engine's methods are proved against, and the lemmas state what they promise.
 */
module CircuitTree {
  import opened Elements

  datatype Circuit = Circuit(
    name: string,
    elements: seq<Redstone>,
    subcircuits: seq<Circuit>,
    ports: map<string, Redstone>,
    initialized: bool)

  /** What `getElement` answers: an element, null, or the exception a negative index raises. */
  datatype Answer = Found(element: Redstone) | NotFound | IndexOutOfBounds

  /** All elements of a circuit tree in pre-order: the circuit's own elements in array
      order, then each subcircuit's, in subcircuit order. */
  function Flatten(t: Circuit): seq<Redstone>
    decreases t, 1
  {
    t.elements + FlattenAll(t.subcircuits)
  }

  function FlattenAll(ts: seq<Circuit>): seq<Redstone>
    decreases ts, 0
  {
    if ts == [] then [] else FlattenAll(ts[..|ts| - 1]) + Flatten(ts[|ts| - 1])
  }

  /** `es` with the ids start, start + 1, ... given out in order. */
  function Relabel(es: seq<Redstone>, start: int): seq<Redstone>
  {
    seq(|es|, k requires 0 <= k < |es| => es[k].(id := start + k))
  }

  /** What `generateIds(start)` leaves behind: local elements first, then each subcircuit
      numbered from where the previous one stopped. */
  function Number(t: Circuit, start: int): Circuit
    decreases t, 1
  {
    t.(elements := Relabel(t.elements, start), subcircuits := NumberAll(t.subcircuits, start + |t.elements|))
  }

  function NumberAll(ts: seq<Circuit>, start: int): seq<Circuit>
    decreases ts, 0
  {
    if ts == [] then []
    else
      var init := ts[..|ts| - 1];
      NumberAll(init, start) + [Number(ts[|ts| - 1], start + |FlattenAll(init)|)]
  }

  lemma RelabelAppend(a: seq<Redstone>, b: seq<Redstone>, start: int)
    ensures Relabel(a + b, start) == Relabel(a, start) + Relabel(b, start + |a|)
  {
  }

  /** Numbering a tree numbers its pre-order sequence: the k-th element of the pre-order
      gets id start + k and keeps everything else. */
  lemma {:induction false} NumberFlattens(t: Circuit, start: int)
    ensures Flatten(Number(t, start)) == Relabel(Flatten(t), start)
    decreases t, 1
  {
    NumberAllFlattens(t.subcircuits, start + |t.elements|);
    RelabelAppend(t.elements, FlattenAll(t.subcircuits), start);
  }

  lemma {:induction false} NumberAllFlattens(ts: seq<Circuit>, start: int)
    ensures FlattenAll(NumberAll(ts, start)) == Relabel(FlattenAll(ts), start)
    decreases ts, 0
  {
    if ts != [] {
      var init, last := ts[..|ts| - 1], ts[|ts| - 1];
      var n := NumberAll(ts, start);
      NumberAllFlattens(init, start);
      NumberFlattens(last, start + |FlattenAll(init)|);
      assert n[..|n| - 1] == NumberAll(init, start);
      RelabelAppend(FlattenAll(init), Flatten(last), start);
    }
  }

  /** After numbering from 0 at the root, the ids over the whole tree are pairwise distinct
      and are exactly 0 .. N-1, N being the number of elements in the tree. */
  lemma RootIdsDistinctAndContiguous(t: Circuit)
    ensures var f := Flatten(Number(t, 0));
      forall j, k :: 0 <= j < k < |f| ==> f[j].id != f[k].id
    ensures forall i :: i in Ids(Flatten(Number(t, 0))) <==> 0 <= i < |Flatten(t)|
  {
    NumberFlattens(t, 0);
    var f := Flatten(Number(t, 0));
    forall i ensures i in Ids(f) <==> 0 <= i < |Flatten(t)| {
      if 0 <= i < |Flatten(t)| {
        assert f[i].id == i;
      }
      if i in Ids(f) {
        var e :| e in f && e.id == i;
        var k :| 0 <= k < |f| && f[k] == e;
      }
    }
  }

  /** The set of ids carried by `es`. */
  function Ids(es: seq<Redstone>): set<int>
  {
    set e | e in es :: e.id
  }

  /** The port index that `initialize` builds from an element array: every Port keyed by its
      name, a later Port replacing an earlier one of the same name. */
  function PortIndex(es: seq<Redstone>): map<string, Redstone>
  {
    if es == [] then map[]
    else
      var index, e := PortIndex(es[..|es| - 1]), es[|es| - 1];
      if e.kind.Port? then index[e.kind.name := e] else index
  }

  /** `es[i]` is a Port named `name` and no later element is. */
  predicate LastPortNamed(es: seq<Redstone>, name: string, i: int)
  {
    0 <= i < |es| && es[i].kind == Port(name) &&
    forall j :: i < j < |es| ==> es[j].kind != Port(name)
  }

  /** The index holds a name exactly when some Port of the array carries it. */
  lemma {:induction false} PortIndexHasPorts(es: seq<Redstone>, name: string)
    ensures name in PortIndex(es) <==> exists i :: 0 <= i < |es| && es[i].kind == Port(name)
  {
    if es != [] {
      var init, e := es[..|es| - 1], es[|es| - 1];
      PortIndexHasPorts(init, name);
      if e.kind == Port(name) {
        assert es[|es| - 1].kind == Port(name);
      } else {
        assert name in PortIndex(es) <==> name in PortIndex(init);
        if name in PortIndex(init) {
          var i :| 0 <= i < |init| && init[i].kind == Port(name);
          assert es[i] == init[i];
        } else {
          forall i | 0 <= i < |es| ensures es[i].kind != Port(name) {
            if i < |es| - 1 { assert es[i] == init[i]; }
          }
        }
      }
    }
  }

  /** A name the index holds is mapped to the last Port of the array carrying it. */
  lemma {:induction false} PortIndexHoldsLastPorts(es: seq<Redstone>, name: string)
    ensures name in PortIndex(es) ==> exists i :: LastPortNamed(es, name, i) && PortIndex(es)[name] == es[i]
  {
    if es != [] {
      var init, e := es[..|es| - 1], es[|es| - 1];
      if e.kind == Port(name) {
        assert PortIndex(es)[name] == e;
        assert LastPortNamed(es, name, |es| - 1);
      } else if name in PortIndex(init) {
        PortIndexHoldsLastPorts(init, name);
        assert PortIndex(es)[name] == PortIndex(init)[name];
        var i :| LastPortNamed(init, name, i) && PortIndex(init)[name] == init[i];
        assert es[i] == init[i];
        assert LastPortNamed(es, name, i);
      } else {
        assert name !in PortIndex(es);
      }
    }
  }

  /** The values of the index are exactly the Ports of the array that no later Port of the
      same name replaces. */
  lemma PortIndexValues(es: seq<Redstone>)
    ensures forall p :: p in PortIndex(es).Values <==>
      p.kind.Port? && exists i :: LastPortNamed(es, p.kind.name, i) && es[i] == p
  {
    forall p ensures p in PortIndex(es).Values <==>
      p.kind.Port? && exists i :: LastPortNamed(es, p.kind.name, i) && es[i] == p
    {
      if p in PortIndex(es).Values {
        var name :| name in PortIndex(es) && PortIndex(es)[name] == p;
        PortIndexHoldsLastPorts(es, name);
      }
      if p.kind.Port? && exists i :: LastPortNamed(es, p.kind.name, i) && es[i] == p {
        var i :| LastPortNamed(es, p.kind.name, i) && es[i] == p;
        PortIndexHasPorts(es, p.kind.name);
        PortIndexHoldsLastPorts(es, p.kind.name);
        var i' :| LastPortNamed(es, p.kind.name, i') && PortIndex(es)[p.kind.name] == es[i'];
        assert i == i';
      }
    }
  }

  /** The first element of `es` whose id is `id`, if any. */
  function FirstWithId(es: seq<Redstone>, id: int): (r: Option<Redstone>)
    ensures r.Some? ==> r.value in es && r.value.id == id
    ensures r.None? <==> forall e :: e in es ==> e.id != id
  {
    if es == [] then None
    else if es[0].id == id then Some(es[0])
    else FirstWithId(es[1..], id)
  }

  lemma {:induction false} FirstWithIdAppend(a: seq<Redstone>, b: seq<Redstone>, id: int)
    ensures FirstWithId(a + b, id) == if FirstWithId(a, id).Some? then FirstWithId(a, id) else FirstWithId(b, id)
  {
    if a != [] {
      assert (a + b)[1..] == a[1..] + b;
      FirstWithIdAppend(a[1..], b, id);
    } else {
      assert a + b == b;
    }
  }

  /** The local elements of the given circuits, one circuit after the other; their own
      subcircuits are not included. */
  function SubLocals(ts: seq<Circuit>): seq<Redstone>
  {
    if ts == [] then [] else SubLocals(ts[..|ts| - 1]) + ts[|ts| - 1].elements
  }

  /** What `getElement(id)` answers for a circuit: beyond the local array, the first
      element of a direct subcircuit carrying that id, or null; within it, the local
      element at index `id`; a negative id indexes the array out of bounds. */
  function Lookup(t: Circuit, id: int): Answer
  {
    if id >= |t.elements| then
      match FirstWithId(SubLocals(t.subcircuits), id)
      case Some(e) => Found(e)
      case None => NotFound
    else if id < 0 then IndexOutOfBounds
    else Found(t.elements[id])
  }

  lemma {:induction false} SubLocalsInFlattenAll(ts: seq<Circuit>, e: Redstone)
    requires e in SubLocals(ts)
    ensures e in FlattenAll(ts)
  {
    var init, last := ts[..|ts| - 1], ts[|ts| - 1];
    if e !in last.elements {
      SubLocalsInFlattenAll(init, e);
    }
  }

  /** On a circuit numbered from 0, `getElement(id)` finds an element exactly when the
      circuit itself or one of its direct subcircuits holds an element with that id, the
      element it finds is the one at position `id` of the pre-order, and it throws exactly
      for a negative id. */
  lemma LookupInNumberedTree(t: Circuit, id: int)
    ensures var u := Number(t, 0);
      Lookup(u, id).Found? <==> exists e :: e in u.elements + SubLocals(u.subcircuits) && e.id == id
    ensures var u := Number(t, 0);
      Lookup(u, id).Found? ==> 0 <= id < |Flatten(u)| && Lookup(u, id).element == Flatten(u)[id]
    ensures Lookup(Number(t, 0), id) == IndexOutOfBounds <==> id < 0
  {
    var u := Number(t, 0);
    var f := Flatten(u);
    NumberFlattens(t, 0);
    assert forall k :: 0 <= k < |f| ==> f[k].id == k;
    assert forall e :: e in u.elements ==> e in f;
    forall e | e in SubLocals(u.subcircuits) ensures e in f {
      SubLocalsInFlattenAll(u.subcircuits, e);
    }
    if 0 <= id < |u.elements| {
      assert u.elements[id] == f[id];
      assert u.elements[id] in u.elements + SubLocals(u.subcircuits);
    } else {
      var r := FirstWithId(SubLocals(u.subcircuits), id);
      if r.Some? && id >= 0 {
        var k :| 0 <= k < |f| && f[k] == r.value;
        assert r.value in u.elements + SubLocals(u.subcircuits);
      } else {
        forall e | e in u.elements + SubLocals(u.subcircuits) ensures e.id != id {
          var k :| 0 <= k < |f| && f[k] == e;
        }
      }
    }
  }

  /** The circuit with every grandchild circuit dropped: its own elements and the local
      elements of its direct subcircuits. */
  function Shallow(t: Circuit): Circuit
  {
    t.(subcircuits := seq(|t.subcircuits|, k requires 0 <= k < |t.subcircuits| => t.subcircuits[k].(subcircuits := [])))
  }

  /** Elements two levels down are not searched: `getElement` answers the same once every
      grandchild circuit is dropped, whatever the deeper circuits hold and whatever their ids. */
  lemma GrandchildrenNotSearched(t: Circuit, id: int)
    ensures Lookup(t, id) == Lookup(Shallow(t), id)
  {
    SubLocalsPointwise(t.subcircuits, Shallow(t).subcircuits);
  }

  /** Lists of circuits whose members hold the same local elements have the same local elements. */
  lemma {:induction false} SubLocalsPointwise(ts: seq<Circuit>, us: seq<Circuit>)
    requires |ts| == |us|
    requires forall k :: 0 <= k < |ts| ==> ts[k].elements == us[k].elements
    ensures SubLocals(ts) == SubLocals(us)
    decreases |ts|
  {
    if ts != [] {
      SubLocalsPointwise(ts[..|ts| - 1], us[..|us| - 1]);
    }
  }

  /** The state `initialize(false)` leaves a circuit in: each circuit of the tree holds
      the port index of its own elements and is marked initialised; nothing else changes. */
  function Index(c: Circuit): Circuit
    decreases c
  {
    c.(ports := PortIndex(c.elements), initialized := true,
       subcircuits := seq(|c.subcircuits|, k requires 0 <= k < |c.subcircuits| => Index(c.subcircuits[k])))
  }

  /** Every circuit of the tree is initialised and its port index reflects its elements. */
  predicate Indexed(c: Circuit)
    decreases c
  {
    && c.initialized
    && c.ports == PortIndex(c.elements)
    && forall k :: 0 <= k < |c.subcircuits| ==> Indexed(c.subcircuits[k])
  }

  /** A circuit is indexed exactly when indexing it changes nothing: so indexing yields an
      indexed circuit, and indexing twice is indexing once. */
  lemma {:induction false} IndexedIffFixed(c: Circuit)
    ensures Indexed(c) <==> Index(c) == c
    decreases c
  {
    forall k | 0 <= k < |c.subcircuits| ensures Indexed(c.subcircuits[k]) <==> Index(c.subcircuits[k]) == c.subcircuits[k] {
      IndexedIffFixed(c.subcircuits[k]);
    }
    if Index(c) == c {
      forall k | 0 <= k < |c.subcircuits| ensures Index(c.subcircuits[k]) == c.subcircuits[k] {
        assert Index(c).subcircuits[k] == Index(c.subcircuits[k]);
      }
    }
  }

  lemma {:induction false} IndexIsIdempotent(c: Circuit)
    ensures Indexed(Index(c)) && Index(Index(c)) == Index(c)
    decreases c
  {
    var i := Index(c);
    forall k | 0 <= k < |c.subcircuits| ensures Indexed(i.subcircuits[k]) {
      IndexIsIdempotent(c.subcircuits[k]);
    }
    IndexedIffFixed(i);
  }

  /** Indexing touches no element: the pre-order of the tree is the same. */
  lemma {:induction false} IndexKeepsElements(c: Circuit)
    ensures Index(c).elements == c.elements
    ensures Flatten(Index(c)) == Flatten(c)
    decreases c
  {
    var i := Index(c);
    forall k | 0 <= k < |c.subcircuits| ensures Flatten(i.subcircuits[k]) == Flatten(c.subcircuits[k]) {
      IndexKeepsElements(c.subcircuits[k]);
    }
    FlattenAllPointwise(i.subcircuits, c.subcircuits);
  }

  /** Lists of circuits whose members flatten alike flatten alike. */
  lemma {:induction false} FlattenAllPointwise(us: seq<Circuit>, ts: seq<Circuit>)
    requires |us| == |ts|
    requires forall k :: 0 <= k < |ts| ==> Flatten(us[k]) == Flatten(ts[k])
    ensures FlattenAll(us) == FlattenAll(ts)
    decreases |ts|
  {
    if ts != [] {
      FlattenAllPointwise(us[..|us| - 1], ts[..|ts| - 1]);
    }
  }

  /** The first index of an element whose identity is `ref`. */
  function FindRef(es: seq<Redstone>, ref: nat): (r: Option<nat>)
    ensures r.Some? ==> r.value < |es| && es[r.value].ref == ref && forall j :: 0 <= j < r.value ==> es[j].ref != ref
    ensures r.None? ==> forall j :: 0 <= j < |es| ==> es[j].ref != ref
  {
    if es == [] then None
    else if es[0].ref == ref then Some(0)
    else match FindRef(es[1..], ref)
      case None => None
      case Some(i) =>
        assert forall j :: 0 <= j < i ==> es[1..][j] == es[j + 1];
        Some(i + 1)
  }
}
