/*
 * The maze map object: a goal cell, a cost per cell and a wall byte per cell,
 * updated in place by wall writes, initialisation and the flood-fill.
 */
module MazeMap {
  import opened MazeWalls
  import opened MazeFlood

  /** The boundary bits placed by the first `k` rounds of the boundary loop
      of InitialiseMaze. Round i walls the west side of cell i, the east side
      of cell 240+i, the south side of cell 16i and the north side of cell
      16i+15; each wall is mirrored into the cell across the edge. */
  predicate PartialBoundary(cell: Byte, b: int, k: int)
  {
    || (b == WEST && cell < k)
    || (b == EAST && 240 <= cell < 240 + k)
    || (b == SOUTH && cell % 16 == 0 && k >= 1 && cell <= 16 * k)
    || (b == NORTH && cell % 16 == 15 && k >= 1 && (cell < 16 * k || cell == 255))
  }

  lemma BoundaryGrowth(cell: Byte, b: int, k: int)
    requires 0 <= k < 16 && 0 <= b < 8
    ensures PartialBoundary(cell, b, k + 1) <==>
      || PartialBoundary(cell, b, k)
      || (cell == k && b == WEST)
      || (cell == Neighbour(k, WEST) && b == EAST)
      || (cell == 240 + k && b == EAST)
      || (cell == Neighbour(240 + k, EAST) && b == WEST)
      || (cell == 16 * k && b == SOUTH)
      || (cell == Neighbour(16 * k, SOUTH) && b == NORTH)
      || (cell == 16 * k + 15 && b == NORTH)
      || (cell == Neighbour(16 * k + 15, NORTH) && b == SOUTH)
  {
  }

  lemma BoundaryComplete(cell: Byte, b: int)
    requires 0 <= b < 4
    ensures PartialBoundary(cell, b, 16) <==> BoundaryEdge(cell, b)
  {
  }

  class Maze {
    var goal: Byte
    const cost: array<Byte>
    const walls: array<bv8>

    /** Two separate tables with one entry per cell. */
    ghost predicate Shape()
    {
      cost.Length == 256 && walls.Length == 256 && cost as object != walls
    }

    /** Every wall is recorded from both of its sides. */
    ghost predicate Valid()
      reads walls
    {
      Shape() && Mirrored(walls[..])
    }

    /** A maze object starts out zero-filled, with the default goal. */
    constructor ()
      ensures Valid() && goal == DEFAULT_GOAL
      ensures fresh(cost) && fresh(walls)
      ensures forall cell: Byte :: cost[cell] == 0 && walls[cell] == 0
    {
      goal := DEFAULT_GOAL;
      cost := new Byte[256](_ => 0);
      walls := new bv8[256](_ => 0);
      new;
      assert forall cell: Byte :: walls[..][cell] == 0;
    }

    method SetMazeGoal(cell: Byte)
      modifies this
      ensures goal == cell
    {
      goal := cell;
    }

    method MarkCellVisited(cell: Byte)
      requires Valid()
      modifies walls
      ensures Valid()
      ensures walls[..] == Visit(old(walls[..]), cell)
      ensures CellIsVisited(cell)
    {
      walls[cell] := walls[cell] | VISITED;
      assert walls[..] == Visit(old(walls[..]), cell);
      VisitMirrored(old(walls[..]), cell);
      VisitKeepsWalls(old(walls[..]), cell);
    }

    /** A cell counts as visited when all four high bits of its byte are set. */
    predicate CellIsVisited(cell: Byte): (r: bool)
      requires Shape()
      reads walls
      ensures r <==> forall b | 4 <= b < 8 :: HasBit(walls[cell], b)
    {
      VisitedBits(walls[cell]);
      walls[cell] & VISITED == VISITED
    }

    /** Bit `direction` of the cell's byte; a direction from 8 upwards lies
        outside the byte and never shows a wall. */
    function IsWall(cell: Byte, direction: Byte): (r: bool)
      requires Shape()
      reads walls
      ensures r <==> HasWall(walls[..], cell, direction)
    {
      direction < 8 && walls[cell] & Bit(direction) != 0
    }

    function IsExit(cell: Byte, direction: Byte): (r: bool)
      requires Shape()
      reads walls
      ensures r <==> !IsWall(cell, direction)
    {
      direction >= 8 || walls[cell] & Bit(direction) == 0
    }

    method SetWallPresent(cell: Byte, direction: Byte)
      requires Valid()
      modifies walls
      ensures Valid()
      ensures walls[..] == WithWall(old(walls[..]), cell, direction)
    {
      assert Opposite(NORTH) == SOUTH && Opposite(EAST) == WEST && Opposite(SOUTH) == NORTH && Opposite(WEST) == EAST;
      ghost var before := walls[..];
      var nextCell := Neighbour(cell, direction);
      if direction < 4 {
        NeighbourInverse(cell, direction);
      }
      if direction == NORTH {
        walls[cell] := SetBit(walls[cell], NORTH);
        walls[nextCell] := SetBit(walls[nextCell], SOUTH);
      } else if direction == EAST {
        walls[cell] := SetBit(walls[cell], EAST);
        walls[nextCell] := SetBit(walls[nextCell], WEST);
      } else if direction == SOUTH {
        walls[cell] := SetBit(walls[cell], SOUTH);
        walls[nextCell] := SetBit(walls[nextCell], NORTH);
      } else if direction == WEST {
        walls[cell] := SetBit(walls[cell], WEST);
        walls[nextCell] := SetBit(walls[nextCell], EAST);
      }
      WithWallMirrored(before, cell, direction);
    }

    method SetWallAbsent(cell: Byte, direction: Byte)
      requires Valid()
      modifies walls
      ensures Valid()
      ensures walls[..] == WithoutWall(old(walls[..]), cell, direction)
    {
      assert Opposite(NORTH) == SOUTH && Opposite(EAST) == WEST && Opposite(SOUTH) == NORTH && Opposite(WEST) == EAST;
      ghost var before := walls[..];
      var nextCell := Neighbour(cell, direction);
      if direction < 4 {
        NeighbourInverse(cell, direction);
      }
      if direction == NORTH {
        walls[cell] := ClearBit(walls[cell], NORTH);
        walls[nextCell] := ClearBit(walls[nextCell], SOUTH);
      } else if direction == EAST {
        walls[cell] := ClearBit(walls[cell], EAST);
        walls[nextCell] := ClearBit(walls[nextCell], WEST);
      } else if direction == SOUTH {
        walls[cell] := ClearBit(walls[cell], SOUTH);
        walls[nextCell] := ClearBit(walls[nextCell], NORTH);
      } else if direction == WEST {
        walls[cell] := ClearBit(walls[cell], WEST);
        walls[nextCell] := ClearBit(walls[nextCell], EAST);
      }
      WithoutWallMirrored(before, cell, direction);
    }

    /** Clears every cost and wall, then lays the outer boundary and the
        start cell's east wall: afterwards exactly the initial walls are set,
        no cell is marked visited and every cost is 0. */
    method InitialiseMaze()
      requires Shape()
      modifies cost, walls
      ensures Valid()
      ensures forall cell: Byte :: cost[cell] == 0
      ensures forall cell: Byte, b | 0 <= b < 8 :: HasBit(walls[cell], b) <==> b < 4 && InitialWall(cell, b)
    {
      var i := 0;
      while i < 256
        invariant 0 <= i <= 256
        invariant forall c | 0 <= c < i :: cost[c] == 0 && walls[c] == 0
      {
        cost[i] := 0;
        walls[i] := 0;
        i := i + 1;
      }
      assert forall cell: Byte :: walls[..][cell] == 0;
      var k := 0;
      while k < 16
        invariant 0 <= k <= 16 && Valid()
        invariant forall cell: Byte :: cost[cell] == 0
        invariant forall cell: Byte, b | 0 <= b < 8 :: HasBit(walls[cell], b) <==> PartialBoundary(cell, b, k)
      {
        PlaceBoundary(k);
        k := k + 1;
      }
      ghost var w4 := walls[..];
      SetWallPresent(START, EAST);
      ghost var w5 := walls[..];
      SetWallAbsent(START, NORTH);
      StartWalls(w4, w5, walls[..]);
    }

    /** One round of the boundary loop: the west wall of cell k, the east
        wall of cell 240+k, the south wall of cell 16k and the north wall of
        cell 16k+15, each mirrored. */
    method PlaceBoundary(k: int)
      requires 0 <= k < 16 && Valid()
      requires forall cell: Byte, b | 0 <= b < 8 :: HasBit(walls[cell], b) <==> PartialBoundary(cell, b, k)
      modifies walls
      ensures Valid()
      ensures forall cell: Byte, b | 0 <= b < 8 :: HasBit(walls[cell], b) <==> PartialBoundary(cell, b, k + 1)
    {
      ghost var w0 := walls[..];
      SetWallPresent(k, WEST);
      ghost var w1 := walls[..];
      SetWallPresent(15 * 16 + k, EAST);
      ghost var w2 := walls[..];
      SetWallPresent(k * 16, SOUTH);
      ghost var w3 := walls[..];
      SetWallPresent(16 * k + 15, NORTH);
      BoundaryRound(w0, w1, w2, w3, walls[..], k);
    }

    /** One round of the boundary loop adds exactly the bits of the next round. */
    static lemma BoundaryRound(w0: seq<bv8>, w1: seq<bv8>, w2: seq<bv8>, w3: seq<bv8>, w4: seq<bv8>, k: int)
      requires 0 <= k < 16 && |w0| == 256
      requires forall cell: Byte, b | 0 <= b < 8 :: HasBit(w0[cell], b) <==> PartialBoundary(cell, b, k)
      requires w1 == WithWall(w0, k, WEST)
      requires w2 == WithWall(w1, 15 * 16 + k, EAST)
      requires w3 == WithWall(w2, k * 16, SOUTH)
      requires w4 == WithWall(w3, 16 * k + 15, NORTH)
      ensures forall cell: Byte, b | 0 <= b < 8 :: HasBit(w4[cell], b) <==> PartialBoundary(cell, b, k + 1)
    {
      WithWallSetsEdge(w0, k, WEST);
      WithWallSetsEdge(w1, 15 * 16 + k, EAST);
      WithWallSetsEdge(w2, k * 16, SOUTH);
      WithWallSetsEdge(w3, 16 * k + 15, NORTH);
      forall cell: Byte, b | 0 <= b < 8 ensures HasBit(w4[cell], b) <==> PartialBoundary(cell, b, k + 1) {
        BoundaryGrowth(cell, b, k);
      }
    }

    /** The start cell's walls turn the full boundary into the initial walls. */
    static lemma StartWalls(w4: seq<bv8>, w5: seq<bv8>, w6: seq<bv8>)
      requires |w4| == 256
      requires forall cell: Byte, b | 0 <= b < 8 :: HasBit(w4[cell], b) <==> PartialBoundary(cell, b, 16)
      requires w5 == WithWall(w4, START, EAST)
      requires w6 == WithoutWall(w5, START, NORTH)
      ensures forall cell: Byte, b | 0 <= b < 8 :: HasBit(w6[cell], b) <==> b < 4 && InitialWall(cell, b)
    {
      WithWallSetsEdge(w4, START, EAST);
      WithoutWallClearsEdge(w5, START, NORTH);
      forall cell: Byte, b | 0 <= b < 8 ensures HasBit(w6[cell], b) <==> b < 4 && InitialWall(cell, b) {
        if b < 4 {
          BoundaryComplete(cell, b);
        }
      }
    }

    /** The cost seen from `cell` through the edge in `direction`. */
    function NeighbourCost(cell: Byte, direction: Byte): (r: Byte)
      requires Shape()
      reads walls, cost
      ensures r == NeighbourCostOf(walls[..], cost[..], cell, direction)
    {
      var wallData := walls[cell];
      if direction == NORTH then
        (if wallData & Bit(NORTH) == 0 then cost[CellNorth(cell)] else MAX_COST)
      else if direction == EAST then
        (if wallData & Bit(EAST) == 0 then cost[CellEast(cell)] else MAX_COST)
      else if direction == SOUTH then
        (if wallData & Bit(SOUTH) == 0 then cost[CellSouth(cell)] else MAX_COST)
      else if direction == WEST then
        (if wallData & Bit(WEST) == 0 then cost[CellWest(cell)] else MAX_COST)
      else MAX_COST
    }

    /** Breadth-first flood from `target` through open edges. Afterwards the
        cost of every cell is its shortest route length to the target (see
        MazeFlood.CostIsDistance), 255 where there is none shorter than 255. */
    method FloodMaze(target: Byte)
      requires Valid()
      modifies cost
      ensures Valid()
      ensures Flooded(walls[..], cost[..], target)
    {
      var i := 0;
      while i < 256
        invariant 0 <= i <= 256
        invariant forall c | 0 <= c < i :: cost[c] == MAX_COST
      {
        cost[i] := MAX_COST;
        i := i + 1;
      }
      cost[target] := 0;
      var queue: seq<Byte> := [target];
      FloodStart(walls[..], cost[..], target);
      ghost var here: Byte := 0;
      while |queue| > 0
        invariant Valid()
        invariant FloodFrontier(walls[..], cost[..], target, queue, here, 4)
        decreases CostSum(cost[..]), |queue|
      {
        var h := queue[0];
        PopHead(walls[..], cost[..], target, queue, here);
        queue := queue[1..];
        here := h;
        queue := RelaxNeighbours(target, queue, h);
      }
      FloodDone(walls[..], cost[..], target, here);
    }

    /** The body of the flood loop: every open neighbour of `h` costing more
        than one move beyond `h` gets that cost and joins the queue. The sum
        of costs falls by at least the number of cells queued. */
    method RelaxNeighbours(target: Byte, queue: seq<Byte>, h: Byte) returns (queue': seq<Byte>)
      requires Valid()
      requires FloodFrontier(walls[..], cost[..], target, queue, h, 0)
      requires cost[h] < MAX_COST
      modifies cost
      ensures Valid()
      ensures FloodFrontier(walls[..], cost[..], target, queue', h, 4)
      ensures |queue| <= |queue'|
      ensures CostSum(cost[..]) + (|queue'| - |queue|) <= old(CostSum(cost[..]))
    {
      queue' := queue;
      var newCost := cost[h] + 1;
      ghost var sum0 := CostSum(cost[..]);
      var direction: Byte := 0;
      while direction < 4
        invariant 0 <= direction <= 4
        invariant FloodFrontier(walls[..], cost[..], target, queue', h, direction)
        invariant newCost == cost[h] + 1 <= MAX_COST
        invariant |queue| <= |queue'| && CostSum(cost[..]) + (|queue'| - |queue|) <= sum0
      {
        queue' := RelaxEdge(target, queue', h, direction, newCost);
        direction := direction + 1;
      }
    }

    /** One direction of the flood loop body: an open edge to a neighbour
        costing more than one move beyond `h` lowers that neighbour's cost
        and queues it. */
    method RelaxEdge(target: Byte, queue: seq<Byte>, h: Byte, direction: Byte, newCost: int) returns (queue': seq<Byte>)
      requires Valid() && direction < 4
      requires FloodFrontier(walls[..], cost[..], target, queue, h, direction)
      requires newCost == cost[h] + 1 <= MAX_COST
      modifies cost
      ensures Valid()
      ensures FloodFrontier(walls[..], cost[..], target, queue', h, direction + 1)
      ensures cost[h] == old(cost[h])
      ensures |queue| <= |queue'|
      ensures CostSum(cost[..]) + (|queue'| - |queue|) <= old(CostSum(cost[..]))
    {
      ghost var ws, cs := walls[..], cost[..];
      queue' := queue;
      var nextCell := Neighbour(h, direction);
      if IsExit(h, direction) && cost[nextCell] > newCost {
        LowerNeighbour(ws, cs, target, queue, h, direction);
        CostSumUpdate(cs, nextCell, newCost);
        cost[nextCell] := newCost;
        assert cost[..] == cs[nextCell := newCost as Byte];
        queue' := queue + [nextCell];
      } else {
        KeepNeighbour(ws, cs, target, queue, h, direction);
      }
      assert walls[..] == ws;
    }

    /** Looks ahead, right, left and behind, keeping a direction only when it
        is strictly cheaper than everything seen so far (starting from the
        cell's own cost). */
    method DirectionToSmallest(cell: Byte, startDirection: Byte) returns (r: Byte)
      requires Shape()
      ensures SmallestChoice(walls[..], cost[..], cell, startDirection, r)
    {
      ghost var ws, cs := walls[..], cost[..];
      ghost var best := -1;
      var nextDirection := startDirection;
      var smallestDirection := INVALID_DIRECTION;
      var smallestCost := cost[cell];
      var nextCost := NeighbourCost(cell, nextDirection);
      ScanStep(ws, cs, cell, startDirection, 0, best, smallestCost, nextCost);
      if nextCost < smallestCost {
        smallestCost := nextCost;
        smallestDirection := nextDirection;
        best := 0;
      }
      nextDirection := (startDirection + 1) % 4; // right
      nextCost := NeighbourCost(cell, nextDirection);
      ScanStep(ws, cs, cell, startDirection, 1, best, smallestCost, nextCost);
      if nextCost < smallestCost {
        smallestCost := nextCost;
        smallestDirection := nextDirection;
        best := 1;
      }
      nextDirection := (startDirection + 3) % 4; // left
      nextCost := NeighbourCost(cell, nextDirection);
      ScanStep(ws, cs, cell, startDirection, 2, best, smallestCost, nextCost);
      if nextCost < smallestCost {
        smallestCost := nextCost;
        smallestDirection := nextDirection;
        best := 2;
      }
      nextDirection := (startDirection + 2) % 4; // behind
      nextCost := NeighbourCost(cell, nextDirection);
      ScanStep(ws, cs, cell, startDirection, 3, best, smallestCost, nextCost);
      if nextCost < smallestCost {
        smallestCost := nextCost;
        smallestDirection := nextDirection;
        best := 3;
      }
      if smallestCost == MAX_COST {
        smallestDirection := 0;
      }
      r := smallestDirection;
      ScanDone(ws, cs, cell, startDirection, best, smallestCost, r);
    }
  }

  /** What the scan knows after examining the first `j` directions: `best`
      is the first of them with the smallest cost when that cost is below
      the cell's own (and -1 otherwise), and `smallest` is that cost. */
  ghost predicate ScanSoFar(ws: seq<bv8>, cs: seq<Byte>, cell: Byte, start: Byte, j: int, best: int, smallest: int)
    requires |ws| == 256 && |cs| == 256 && 0 <= j <= 4
  {
    && -1 <= best < j
    && (best == -1 ==>
          smallest == cs[cell] && forall i | 0 <= i < j :: ScanCost(ws, cs, cell, start, i) >= cs[cell])
    && (best >= 0 ==>
          && smallest == ScanCost(ws, cs, cell, start, best) < cs[cell]
          && (forall i | 0 <= i < j :: smallest <= ScanCost(ws, cs, cell, start, i))
          && (forall i | 0 <= i < best :: smallest < ScanCost(ws, cs, cell, start, i)))
  }

  lemma ScanStep(ws: seq<bv8>, cs: seq<Byte>, cell: Byte, start: Byte, j: int, best: int, smallest: int, next: int)
    requires |ws| == 256 && |cs| == 256 && 0 <= j < 4
    requires j == 0 ==> best == -1 && smallest == cs[cell]
    requires j > 0 ==> ScanSoFar(ws, cs, cell, start, j, best, smallest)
    requires next == ScanCost(ws, cs, cell, start, j)
    ensures next < smallest ==> ScanSoFar(ws, cs, cell, start, j + 1, j, next)
    ensures next >= smallest ==> ScanSoFar(ws, cs, cell, start, j + 1, best, smallest)
  {
  }

  lemma ScanDone(ws: seq<bv8>, cs: seq<Byte>, cell: Byte, start: Byte, best: int, smallest: int, r: Byte)
    requires |ws| == 256 && |cs| == 256
    requires ScanSoFar(ws, cs, cell, start, 4, best, smallest)
    requires best >= 0 ==> r == ScanOrder(start)[best]
    requires best == -1 ==> r == INVALID_DIRECTION
    ensures SmallestChoice(ws, cs, cell, start, r)
  {
    if best >= 0 {
      assert ScanCost(ws, cs, cell, start, best) < cs[cell];
    }
  }
}
