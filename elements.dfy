/**
 The logic elements that a circuit is made of (the `Redstone` class hierarchy of the
 plugin: plain wire, `Inverter`, `Repeater`, `Port`, `SolidComponent`).

 The element classes themselves are not part of this model; an element is a record
 carrying the attributes the circuit engine and the graph builder read or write. Object
 identity, which the engine compares with `==`, is the `ref` field.
 */
module Elements {

  datatype Option<+T> = None | Some(value: T)

  /** The variant of an element; a Port carries its name. */
  datatype Kind = Wire | Inverter | Repeater | Port(name: string) | SolidComponent

  /** An element: `ref` stands for object identity, `id` is the engine-assigned number. */
  datatype Redstone = Redstone(
    ref: nat,
    id: int,
    kind: Kind,
    x: int,
    z: int,
    powered: bool,
    delay: int,
    inputs: seq<nat>,
    outputs: seq<nat>)

  /** `s` with index `i` deleted. */
  function Without<T>(s: seq<T>, i: nat): (r: seq<T>)
    requires i < |s|
  {
    s[..i] + s[i + 1..]
  }

  /** Deleting one index keeps everything before it in place and shifts the rest down by one. */
  lemma WithoutShifts<T>(s: seq<T>, i: nat)
    requires i < |s|
    ensures |Without(s, i)| == |s| - 1
    ensures forall k :: 0 <= k < i ==> Without(s, i)[k] == s[k]
    ensures forall k :: i <= k < |s| - 1 ==> Without(s, i)[k] == s[k + 1]
    ensures multiset(Without(s, i)) + multiset{s[i]} == multiset(s)
  {
    assert s == s[..i] + [s[i]] + s[i + 1..];
  }
}
