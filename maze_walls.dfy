/*
 * Cell geometry and wall bytes of the 16x16 micromouse maze map.
 *
 * Cells are numbered 16*column + row, so that moving north adds 1, east adds
 * 16, south adds 255 and west adds 240, all modulo 256. Each cell owns one
 * byte of wall data: bit d is set when there is a wall in direction d
 * (NORTH=0, EAST=1, SOUTH=2, WEST=3), and the high nibble marks a visited
 * cell. A clear bit means "exit": edges never seen are treated as open.
 */
module MazeWalls {

  /** An unsigned 8-bit quantity: a cell index, a direction or a cost. */
  type Byte = x: int | 0 <= x < 256

  const GOAL: Byte := 0x22
  const START: Byte := 0x00
  const DEFAULT_GOAL: Byte := 0x77

  const NORTH: Byte := 0
  const EAST: Byte := 1
  const SOUTH: Byte := 2
  const WEST: Byte := 3

  const VISITED: bv8 := 0xF0
  const INVALID_DIRECTION: Byte := 0
  const MAX_COST: Byte := 255

  function Column(cell: Byte): int { cell / 16 }
  function Row(cell: Byte): int { cell % 16 }

  /* The next cell in each direction, as an 8-bit sum that wraps around:
     adding 1, 16, 255 or 240 modulo 256 (see CellStepsWrap). */
  function CellNorth(cell: Byte): Byte { if cell == 255 then 0 else cell + 1 }
  function CellEast(cell: Byte): Byte { if cell >= 240 then cell - 240 else cell + 16 }
  function CellSouth(cell: Byte): Byte { if cell == 0 then 255 else cell - 1 }
  function CellWest(cell: Byte): Byte { if cell < 16 then cell + 240 else cell - 16 }

  lemma CellStepsWrap(cell: Byte)
    ensures CellNorth(cell) == (cell + 1) % 256
    ensures CellEast(cell) == (cell + 16) % 256
    ensures CellSouth(cell) == (cell + 255) % 256
    ensures CellWest(cell) == (cell + 240) % 256
  {
  }

  /** The adjacent cell in a direction; any direction outside 0..3 gives 255. */
  function Neighbour(cell: Byte, direction: Byte): Byte
  {
    if direction == NORTH then CellNorth(cell)
    else if direction == EAST then CellEast(cell)
    else if direction == SOUTH then CellSouth(cell)
    else if direction == WEST then CellWest(cell)
    else MAX_COST
  }

  /** The direction pointing back across the same edge. */
  function Opposite(direction: Byte): Byte
    requires direction < 4
  {
    if direction < 2 then direction + 2 else direction - 2
  }

  /** Stepping to a neighbour and back in the opposite direction returns to the
      start, and a cell is never its own neighbour. */
  lemma NeighbourInverse(cell: Byte, direction: Byte)
    requires direction < 4
    ensures Neighbour(Neighbour(cell, direction), Opposite(direction)) == cell
    ensures Neighbour(cell, direction) != cell
  {
  }

  /** Away from the edge each direction moves one step on the 16x16 grid;
      an invalid direction yields cell 255. */
  lemma NeighbourGeometry(cell: Byte, direction: Byte)
    ensures var n := Neighbour(cell, direction);
      && (direction == NORTH && Row(cell) < 15 ==> Column(n) == Column(cell) && Row(n) == Row(cell) + 1)
      && (direction == EAST && Column(cell) < 15 ==> Column(n) == Column(cell) + 1 && Row(n) == Row(cell))
      && (direction == SOUTH && Row(cell) > 0 ==> Column(n) == Column(cell) && Row(n) == Row(cell) - 1)
      && (direction == WEST && Column(cell) > 0 ==> Column(n) == Column(cell) - 1 && Row(n) == Row(cell))
      && (direction >= 4 ==> n == 255)
  {
    if direction == NORTH && Row(cell) < 15 {
      StepNorth(cell);
    } else if direction == EAST && Column(cell) < 15 {
      StepEast(cell);
    } else if direction == SOUTH && Row(cell) > 0 {
      StepSouth(cell);
    } else if direction == WEST && Column(cell) > 0 {
      StepWest(cell);
    }
  }

  lemma StepNorth(cell: Byte)
    requires cell % 16 < 15
    ensures CellNorth(cell) == cell + 1 && (cell + 1) / 16 == cell / 16 && (cell + 1) % 16 == cell % 16 + 1
  {
  }

  lemma StepEast(cell: Byte)
    requires cell / 16 < 15
    ensures CellEast(cell) == cell + 16 && (cell + 16) / 16 == cell / 16 + 1 && (cell + 16) % 16 == cell % 16
  {
  }

  lemma StepSouth(cell: Byte)
    requires cell % 16 > 0
    ensures CellSouth(cell) == cell - 1 && (cell - 1) / 16 == cell / 16 && (cell - 1) % 16 == cell % 16 - 1
  {
  }

  lemma StepWest(cell: Byte)
    requires cell / 16 > 0
    ensures CellWest(cell) == cell - 16 && (cell - 16) / 16 == cell / 16 - 1 && (cell - 16) % 16 == cell % 16
  {
  }

  // ---------------------------------------------------------------------
  // Wall bytes

  /** The mask 1 << b of bit position b. */
  function Bit(b: int): bv8
    requires 0 <= b < 8
  {
    match b
    case 0 => 0x01
    case 1 => 0x02
    case 2 => 0x04
    case 3 => 0x08
    case 4 => 0x10
    case 5 => 0x20
    case 6 => 0x40
    case 7 => 0x80
  }

  /** The mask ~(1 << b) that clears bit position b. */
  function ClearMask(b: int): bv8
    requires 0 <= b < 8
  {
    match b
    case 0 => 0xFE
    case 1 => 0xFD
    case 2 => 0xFB
    case 3 => 0xF7
    case 4 => 0xEF
    case 5 => 0xDF
    case 6 => 0xBF
    case 7 => 0x7F
  }

  /** The byte with bit b set, as `w | (1 << b)`. */
  function SetBit(w: bv8, b: int): bv8
    requires 0 <= b < 8
  {
    w | Bit(b)
  }

  /** The byte with bit b cleared, as `w & ~(1 << b)`. */
  function ClearBit(w: bv8, b: int): bv8
    requires 0 <= b < 8
  {
    w & ClearMask(b)
  }

  /** Bit b of a wall byte; positions from 8 upwards lie outside the byte. */
  predicate HasBit(w: bv8, b: int)
  {
    0 <= b < 8 && w & Bit(b) != 0
  }

  lemma OrBit(w: bv8, d: int, b: int)
    requires 0 <= d < 8
    ensures HasBit(SetBit(w, d), b) <==> HasBit(w, b) || b == d
  {
  }

  lemma AndNotBit(w: bv8, d: int, b: int)
    requires 0 <= d < 8
    ensures HasBit(ClearBit(w, d), b) <==> HasBit(w, b) && b != d
  {
  }

  /** The visited mark is present exactly when bits 4 to 7 are all set. */
  lemma VisitedBits(w: bv8)
    ensures w & VISITED == VISITED <==> forall b | 4 <= b < 8 :: HasBit(w, b)
  {
    assert HasBit(w, 4) && HasBit(w, 5) && HasBit(w, 6) && HasBit(w, 7) ==> w & VISITED == VISITED;
  }

  lemma OrVisited(w: bv8, b: int)
    requires 0 <= b < 4
    ensures HasBit(w | VISITED, b) <==> HasBit(w, b)
  {
  }

  predicate HasWall(ws: seq<bv8>, cell: Byte, direction: Byte)
    requires |ws| == 256
  {
    HasBit(ws[cell], direction)
  }

  predicate HasExit(ws: seq<bv8>, cell: Byte, direction: Byte)
    requires |ws| == 256
  {
    !HasWall(ws, cell, direction)
  }

  /** The edge leaving `cell` in `direction` is recorded identically from the
      cell on its other side. */
  predicate EdgeAgrees(ws: seq<bv8>, cell: Byte, direction: Byte)
    requires |ws| == 256 && direction < 4
  {
    HasWall(ws, cell, direction) == HasWall(ws, Neighbour(cell, direction), Opposite(direction))
  }

  /** Each wall is recorded identically from the cells on both of its sides. */
  ghost predicate Mirrored(ws: seq<bv8>)
    requires |ws| == 256
  {
    forall cell: Byte, direction: Byte | direction < 4 :: EdgeAgrees(ws, cell, direction)
  }

  /** The wall data after a wall is placed on the edge leaving `cell` in
      `direction`; an invalid direction changes nothing. */
  function WithWall(ws: seq<bv8>, cell: Byte, direction: Byte): (r: seq<bv8>)
    requires |ws| == 256
    ensures |r| == 256
  {
    if direction < 4 then
      var next := Neighbour(cell, direction);
      var w := ws[cell := SetBit(ws[cell], direction)];
      w[next := SetBit(w[next], Opposite(direction))]
    else ws
  }

  /** The wall data after the wall on that edge is removed. */
  function WithoutWall(ws: seq<bv8>, cell: Byte, direction: Byte): (r: seq<bv8>)
    requires |ws| == 256
    ensures |r| == 256
  {
    if direction < 4 then
      var next := Neighbour(cell, direction);
      var w := ws[cell := ClearBit(ws[cell], direction)];
      w[next := ClearBit(w[next], Opposite(direction))]
    else ws
  }

  /** The wall data after the cell is marked as visited. */
  function Visit(ws: seq<bv8>, cell: Byte): (r: seq<bv8>)
    requires |ws| == 256
    ensures |r| == 256
  {
    ws[cell := ws[cell] | VISITED]
  }

  /** Placing a wall sets exactly two bits: bit d of the cell and the
      opposite bit of its neighbour. Every other bit of every byte is kept. */
  lemma WithWallSetsEdge(ws: seq<bv8>, cell: Byte, direction: Byte)
    requires |ws| == 256
    ensures direction >= 4 ==> WithWall(ws, cell, direction) == ws
    ensures direction < 4 ==>
      var r := WithWall(ws, cell, direction);
      var next := Neighbour(cell, direction);
      forall x: Byte, b: int | 0 <= b < 8 ::
        HasBit(r[x], b) <==> HasBit(ws[x], b) || (x == cell && b == direction) || (x == next && b == Opposite(direction))
  {
    if direction < 4 {
      var r := WithWall(ws, cell, direction);
      var next := Neighbour(cell, direction);
      NeighbourInverse(cell, direction);
      forall x: Byte, b: int | 0 <= b < 8
        ensures HasBit(r[x], b) <==> HasBit(ws[x], b) || (x == cell && b == direction) || (x == next && b == Opposite(direction))
      {
        OrBit(ws[x], direction, b);
        OrBit(ws[x], Opposite(direction), b);
      }
    }
  }

  /** Removing a wall clears exactly the same two bits and keeps every other. */
  lemma WithoutWallClearsEdge(ws: seq<bv8>, cell: Byte, direction: Byte)
    requires |ws| == 256
    ensures direction >= 4 ==> WithoutWall(ws, cell, direction) == ws
    ensures direction < 4 ==>
      var r := WithoutWall(ws, cell, direction);
      var next := Neighbour(cell, direction);
      forall x: Byte, b: int | 0 <= b < 8 ::
        HasBit(r[x], b) <==> HasBit(ws[x], b) && !(x == cell && b == direction) && !(x == next && b == Opposite(direction))
  {
    if direction < 4 {
      var r := WithoutWall(ws, cell, direction);
      var next := Neighbour(cell, direction);
      forall x: Byte, b: int | 0 <= b < 8
        ensures HasBit(r[x], b) <==> HasBit(ws[x], b) && !(x == cell && b == direction) && !(x == next && b == Opposite(direction))
      {
        NeighbourInverse(cell, direction);
        ClearedAt(ws, cell, direction, x, b);
      }
    }
  }

  lemma ClearedAt(ws: seq<bv8>, cell: Byte, direction: Byte, x: Byte, b: int)
    requires |ws| == 256 && direction < 4 && 0 <= b < 8
    ensures x == cell ==> (HasBit(WithoutWall(ws, cell, direction)[x], b) <==> HasBit(ws[x], b) && b != direction)
    ensures x == Neighbour(cell, direction) ==>
      (HasBit(WithoutWall(ws, cell, direction)[x], b) <==> HasBit(ws[x], b) && b != Opposite(direction))
    ensures x != cell && x != Neighbour(cell, direction) ==> WithoutWall(ws, cell, direction)[x] == ws[x]
  {
    NeighbourInverse(cell, direction);
    AndNotBit(ws[x], direction, b);
    AndNotBit(ws[x], Opposite(direction), b);
  }

  /** Placing the same wall twice is the same as placing it once. */
  lemma WithWallIdempotent(ws: seq<bv8>, cell: Byte, direction: Byte)
    requires |ws| == 256
    ensures WithWall(WithWall(ws, cell, direction), cell, direction) == WithWall(ws, cell, direction)
  {
    if direction < 4 {
      NeighbourInverse(cell, direction);
    }
  }

  /** Present-then-absent on one edge leaves both of its bits clear, the same
      as removing the wall directly. */
  lemma PresentThenAbsent(ws: seq<bv8>, cell: Byte, direction: Byte)
    requires |ws| == 256
    requires direction < 4
    ensures var r := WithoutWall(WithWall(ws, cell, direction), cell, direction);
      && r == WithoutWall(ws, cell, direction)
      && HasExit(r, cell, direction)
      && HasExit(r, Neighbour(cell, direction), Opposite(direction))
  {
    var w1 := WithWall(ws, cell, direction);
    var r := WithoutWall(w1, cell, direction);
    var s := WithoutWall(ws, cell, direction);
    WithWallSetsEdge(ws, cell, direction);
    WithoutWallClearsEdge(w1, cell, direction);
    WithoutWallClearsEdge(ws, cell, direction);
    forall x: Byte ensures r[x] == s[x] {
      BitsDetermineByte(r[x], s[x]);
    }
  }

  lemma BitsDetermineByte(a: bv8, b: bv8)
    requires forall k | 0 <= k < 8 :: HasBit(a, k) == HasBit(b, k)
    ensures a == b
  {
    assert HasBit(a, 0) == HasBit(b, 0) && HasBit(a, 1) == HasBit(b, 1);
    assert HasBit(a, 2) == HasBit(b, 2) && HasBit(a, 3) == HasBit(b, 3);
    assert HasBit(a, 4) == HasBit(b, 4) && HasBit(a, 5) == HasBit(b, 5);
    assert HasBit(a, 6) == HasBit(b, 6) && HasBit(a, 7) == HasBit(b, 7);
  }

  /** Marking a cell visited sets its high nibble and changes no wall. */
  lemma VisitKeepsWalls(ws: seq<bv8>, cell: Byte)
    requires |ws| == 256
    ensures var r := Visit(ws, cell);
      && r[cell] & VISITED == VISITED
      && forall x: Byte, d: Byte | d < 4 :: HasWall(r, x, d) == HasWall(ws, x, d)
  {
    var r := Visit(ws, cell);
    forall x: Byte, d: Byte | d < 4 ensures HasWall(r, x, d) == HasWall(ws, x, d) {
      OrVisited(ws[x], d);
    }
  }

  lemma WithWallMirrored(ws: seq<bv8>, cell: Byte, direction: Byte)
    requires |ws| == 256 && Mirrored(ws)
    ensures Mirrored(WithWall(ws, cell, direction))
  {
    if direction < 4 {
      var r := WithWall(ws, cell, direction);
      WithWallSetsEdge(ws, cell, direction);
      forall x: Byte, e: Byte | e < 4 ensures EdgeAgrees(r, x, e) {
        assert EdgeAgrees(ws, x, e);
        NeighbourInverse(x, e);
        NeighbourInverse(cell, direction);
      }
    }
  }

  lemma WithoutWallMirrored(ws: seq<bv8>, cell: Byte, direction: Byte)
    requires |ws| == 256 && Mirrored(ws)
    ensures Mirrored(WithoutWall(ws, cell, direction))
  {
    if direction < 4 {
      var r := WithoutWall(ws, cell, direction);
      WithoutWallClearsEdge(ws, cell, direction);
      forall x: Byte, e: Byte | e < 4 ensures EdgeAgrees(r, x, e) {
        assert EdgeAgrees(ws, x, e);
        NeighbourInverse(x, e);
        NeighbourInverse(cell, direction);
      }
    }
  }

  lemma VisitMirrored(ws: seq<bv8>, cell: Byte)
    requires |ws| == 256 && Mirrored(ws)
    ensures Mirrored(Visit(ws, cell))
  {
    VisitKeepsWalls(ws, cell);
    forall x: Byte, d: Byte | d < 4 ensures EdgeAgrees(Visit(ws, cell), x, d) {
      assert EdgeAgrees(ws, x, d);
    }
  }

  // ---------------------------------------------------------------------
  // The freshly initialised maze

  /** An edge on the outside of the 16x16 grid. */
  predicate BoundaryEdge(cell: Byte, direction: Byte)
  {
    || (direction == NORTH && Row(cell) == 15)
    || (direction == EAST && Column(cell) == 15)
    || (direction == SOUTH && Row(cell) == 0)
    || (direction == WEST && Column(cell) == 0)
  }

  /** The walls known before any exploration: the outer boundary and the
      wall between the start cell and its eastern neighbour. */
  predicate InitialWall(cell: Byte, direction: Byte)
  {
    || BoundaryEdge(cell, direction)
    || (cell == START && direction == EAST)
    || (cell == CellEast(START) && direction == WEST)
  }

  /** The initial walls are closed under viewing an edge from the other
      side; in particular every boundary wall is also recorded by the cell
      across the wrap-around edge. */
  lemma InitialWallMirrored(cell: Byte, direction: Byte)
    requires direction < 4
    ensures InitialWall(cell, direction) == InitialWall(Neighbour(cell, direction), Opposite(direction))
  {
  }
}
