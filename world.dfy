/**
 The block world the graph builder reads: a finite map from positions to blocks, where every
 position the map does not name holds air. A block has a material, the direction it faces
 (for torches, diodes and levers) and its four-bit data value.

 The world is read-only while a circuit is built, so it is a value here; the queries the
 builder makes of it (block type, facing, the neighbour in a direction, the block a torch is
 attached to, the input and output blocks a solid block conducts between) are functions of it.
 */
module World {

  datatype Pos = Pos(x: int, y: int, z: int)

  datatype Face = North | East | South | West | Up | Down

  /** The materials the builder tells apart; every other material is `Other`. */
  datatype Material = Air | RedstoneWire | TorchOn | TorchOff | DiodeOff | DiodeOn | Lever | Solid | Other

  type Nibble = d: int | 0 <= d < 16

  datatype Block = Block(material: Material, facing: Face, data: Nibble)

  /**
   The blocks, plus the input and output positions of each solid block (the lists a
   `SolidComponent` is constructed with).
   */
  datatype World = World(
    blocks: map<Pos, Block>,
    solidInputs: map<Pos, seq<Pos>>,
    solidOutputs: map<Pos, seq<Pos>>)

  const AirBlock := Block(Air, Up, 0)

  /** The block at `p`; positions outside the map are air. */
  function At(w: World, p: Pos): (b: Block)
    ensures b.material != Air ==> p in w.blocks
    ensures p !in w.blocks ==> b == AirBlock
  {
    if p in w.blocks then w.blocks[p] else AirBlock
  }

  function SolidInputs(w: World, p: Pos): seq<Pos>
  {
    if p in w.solidInputs then w.solidInputs[p] else []
  }

  function SolidOutputs(w: World, p: Pos): seq<Pos>
  {
    if p in w.solidOutputs then w.solidOutputs[p] else []
  }

  predicate IsTorch(m: Material)
  {
    m == TorchOn || m == TorchOff
  }

  predicate IsDiode(m: Material)
  {
    m == DiodeOff || m == DiodeOn
  }

  predicate IsSolid(m: Material)
  {
    m == Solid
  }

  /** The neighbouring position one step in direction `f` (north is -z, east is +x). */
  function Relative(p: Pos, f: Face): (q: Pos)
    ensures f != Up && f != Down ==> q.y == p.y
  {
    match f
    case North => p.(z := p.z - 1)
    case South => p.(z := p.z + 1)
    case East => p.(x := p.x + 1)
    case West => p.(x := p.x - 1)
    case Up => p.(y := p.y + 1)
    case Down => p.(y := p.y - 1)
  }

  function Opposite(f: Face): (o: Face)
    ensures o != f
    ensures Relative(Relative(Pos(0, 0, 0), f), o) == Pos(0, 0, 0)
  {
    match f
    case North => South
    case South => North
    case East => West
    case West => East
    case Up => Down
    case Down => Up
  }

  /** The four horizontal directions, in the order the builder visits them. */
  const Axis: seq<Face> := [North, East, South, West]

  /** The directions a torch or lever can be attached through, in visiting order. */
  const AttachedFacesDown: seq<Face> := [North, East, South, West, Down]

  /** The block a torch or lever hangs on: one step against the direction it faces. */
  function AttachedBlock(w: World, p: Pos): Pos
  {
    Relative(p, Opposite(At(w, p).facing))
  }
}
