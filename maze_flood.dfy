/*
 * What a flood of the maze computes: the cost of every cell is the number of
 * moves on the shortest route through open edges to the target, with 255
 * standing for "no route shorter than 255 moves".
 */
module MazeFlood {
  import opened MazeWalls

  /** Every open edge from a reached cell leads to a cell at most one move
      further away. */
  ghost predicate Relaxed(ws: seq<bv8>, cs: seq<Byte>)
    requires |ws| == 256 && |cs| == 256
  {
    forall cell: Byte, direction: Byte | direction < 4 ::
      HasExit(ws, cell, direction) && cs[cell] < MAX_COST ==>
        cs[Neighbour(cell, direction)] <= cs[cell] + 1
  }

  /** The cell has an open edge to a neighbour with a strictly smaller cost. */
  ghost predicate HasCheaperExit(ws: seq<bv8>, cs: seq<Byte>, cell: Byte)
    requires |ws| == 256 && |cs| == 256
  {
    exists direction: Byte | direction < 4 ::
      HasExit(ws, cell, direction) && cs[Neighbour(cell, direction)] < cs[cell]
  }

  /** The cell has an open edge to a neighbour whose cost is exactly one less. */
  ghost predicate HasDescent(ws: seq<bv8>, cs: seq<Byte>, cell: Byte)
    requires |ws| == 256 && |cs| == 256
  {
    exists direction: Byte | direction < 4 ::
      HasExit(ws, cell, direction) && cs[Neighbour(cell, direction)] as int + 1 == cs[cell]
  }

  /** The costs a completed flood towards `target` leaves behind. */
  ghost predicate Flooded(ws: seq<bv8>, cs: seq<Byte>, target: Byte)
    requires |ws| == 256 && |cs| == 256
  {
    && cs[target] == 0
    && (forall cell: Byte :: cs[cell] == 0 ==> cell == target)
    && Relaxed(ws, cs)
    && (forall cell: Byte :: 0 < cs[cell] < MAX_COST ==> HasDescent(ws, cs, cell))
  }

  /** Following `route` (a sequence of directions) from `cell` crosses only
      open edges and ends at `target`. */
  ghost predicate Route(ws: seq<bv8>, cell: Byte, route: seq<Byte>, target: Byte)
    requires |ws| == 256
    decreases |route|
  {
    if route == [] then cell == target
    else
      && route[0] < 4
      && HasExit(ws, cell, route[0])
      && Route(ws, Neighbour(cell, route[0]), route[1..], target)
  }

  /** Sum of all costs; it falls whenever a flood lowers a cost. */
  function CostSum(cs: seq<Byte>): nat
  {
    if cs == [] then 0 else cs[0] + CostSum(cs[1..])
  }

  lemma {:induction false} CostSumUpdate(cs: seq<Byte>, i: nat, v: Byte)
    requires i < |cs|
    ensures CostSum(cs[i := v]) + cs[i] == CostSum(cs) + v
    decreases |cs|
  {
    if i > 0 {
      CostSumUpdate(cs[1..], i - 1, v);
      assert cs[i := v][1..] == cs[1..][i - 1 := v];
    }
  }

  /** The costs after `fill`: every cell unreached except the target. */
  lemma FloodStart(ws: seq<bv8>, cs: seq<Byte>, target: Byte)
    requires |ws| == 256 && |cs| == 256
    requires forall cell: Byte :: cs[cell] == (if cell == target then 0 else MAX_COST)
    ensures FloodFrontier(ws, cs, target, [target], 0, 4)
  {
  }

  /** The loop invariant of the flood. Cells still waiting in `queue` and the
      directions of `here` from `next` onwards may still have open edges to
      cells that are too expensive; every other reached cell is relaxed. */
  ghost predicate FloodFrontier(ws: seq<bv8>, cs: seq<Byte>, target: Byte,
                                queue: seq<Byte>, here: Byte, next: int)
    requires |ws| == 256 && |cs| == 256
  {
    && cs[target] == 0
    && (forall cell: Byte :: cs[cell] == 0 ==> cell == target)
    && (forall k | 0 <= k < |queue| :: cs[queue[k]] < MAX_COST)
    && (forall cell: Byte, direction: Byte | direction < 4 ::
          HasExit(ws, cell, direction) && cs[cell] < MAX_COST && cell !in queue
          && !(cell == here && direction >= next) ==>
            cs[Neighbour(cell, direction)] <= cs[cell] + 1)
    && (forall cell: Byte :: 0 < cs[cell] < MAX_COST ==> HasCheaperExit(ws, cs, cell))
  }

  /** Lowering the cost of `cell`'s neighbour to one more than `cell`'s and
      queueing it keeps the invariant, and also relaxes that one edge. */
  lemma LowerNeighbour(ws: seq<bv8>, cs: seq<Byte>, target: Byte,
                       queue: seq<Byte>, here: Byte, direction: Byte)
    requires |ws| == 256 && |cs| == 256 && Mirrored(ws) && direction < 4
    requires FloodFrontier(ws, cs, target, queue, here, direction)
    requires cs[here] < MAX_COST - 1 && HasExit(ws, here, direction)
    requires cs[Neighbour(here, direction)] > cs[here] + 1
    ensures var next := Neighbour(here, direction);
      FloodFrontier(ws, cs[next := cs[here] + 1], target, queue + [next], here, direction + 1)
  {
    var next := Neighbour(here, direction);
    var cs' := cs[next := cs[here] + 1];
    var queue' := queue + [next];
    NeighbourInverse(here, direction);
    assert EdgeAgrees(ws, here, direction);
    assert cs'[Neighbour(next, Opposite(direction))] < cs'[next];
    forall cell: Byte | 0 < cs'[cell] < MAX_COST ensures HasCheaperExit(ws, cs', cell) {
      if cell != next {
        var d: Byte :| d < 4 && HasExit(ws, cell, d) && cs[Neighbour(cell, d)] < cs[cell];
        assert cs'[Neighbour(cell, d)] < cs'[cell];
      }
    }
    forall k | 0 <= k < |queue'| ensures cs'[queue'[k]] < MAX_COST {
      if k < |queue| {
        assert queue'[k] == queue[k];
      }
    }
    assert next in queue';
    forall cell: Byte, d: Byte | d < 4 && HasExit(ws, cell, d) && cs'[cell] < MAX_COST && cell !in queue'
      && !(cell == here && d >= direction + 1)
      ensures cs'[Neighbour(cell, d)] <= cs'[cell] + 1
    {
      assert cell != next;
      assert cell !in queue;
    }
  }

  /** Leaving the neighbour's cost alone keeps the invariant when the edge
      is a wall or the neighbour is already cheap enough. */
  lemma KeepNeighbour(ws: seq<bv8>, cs: seq<Byte>, target: Byte,
                      queue: seq<Byte>, here: Byte, direction: Byte)
    requires |ws| == 256 && |cs| == 256 && direction < 4
    requires FloodFrontier(ws, cs, target, queue, here, direction)
    requires cs[here] < MAX_COST
    requires HasExit(ws, here, direction) ==> cs[Neighbour(here, direction)] <= cs[here] + 1
    ensures FloodFrontier(ws, cs, target, queue, here, direction + 1)
  {
  }

  /** Taking the head off the queue: the removed cell is exempt while its
      four directions are being examined. */
  lemma PopHead(ws: seq<bv8>, cs: seq<Byte>, target: Byte, queue: seq<Byte>, before: Byte)
    requires |ws| == 256 && |cs| == 256 && queue != []
    requires FloodFrontier(ws, cs, target, queue, before, 4)
    ensures FloodFrontier(ws, cs, target, queue[1..], queue[0], 0)
    ensures cs[queue[0]] < MAX_COST
  {
    forall cell: Byte, d: Byte | d < 4 && HasExit(ws, cell, d) && cs[cell] < MAX_COST && cell !in queue[1..]
      && !(cell == queue[0] && d >= 0)
      ensures cs[Neighbour(cell, d)] <= cs[cell] + 1
    {
      assert cell !in queue;
    }
    forall k | 0 <= k < |queue[1..]| ensures cs[queue[1..][k]] < MAX_COST {
      assert queue[1..][k] == queue[k + 1];
    }
  }

  /** With the queue empty and no cell half-examined, the invariant is a
      completed flood. */
  lemma FloodDone(ws: seq<bv8>, cs: seq<Byte>, target: Byte, here: Byte)
    requires |ws| == 256 && |cs| == 256 && Mirrored(ws)
    requires FloodFrontier(ws, cs, target, [], here, 4)
    ensures Flooded(ws, cs, target)
  {
    forall cell: Byte | 0 < cs[cell] < MAX_COST ensures HasDescent(ws, cs, cell) {
      ExactDescent(ws, cs, cell);
    }
  }

  /** In relaxed costs over mirrored walls, a strictly cheaper neighbour
      through an open edge is exactly one move cheaper. */
  lemma ExactDescent(ws: seq<bv8>, cs: seq<Byte>, cell: Byte)
    requires |ws| == 256 && |cs| == 256 && Mirrored(ws) && Relaxed(ws, cs)
    requires 0 < cs[cell] < MAX_COST && HasCheaperExit(ws, cs, cell)
    ensures HasDescent(ws, cs, cell)
  {
    var d: Byte :| d < 4 && HasExit(ws, cell, d) && cs[Neighbour(cell, d)] < cs[cell];
    var next := Neighbour(cell, d);
    NeighbourInverse(cell, d);
    assert EdgeAgrees(ws, cell, d);
    assert cs[next] as int + 1 == cs[cell];
  }

  /** Over mirrored walls, no route shorter than 255 moves is shorter than
      the flooded cost. */
  lemma {:induction false} RouteBound(ws: seq<bv8>, cs: seq<Byte>, target: Byte,
                                      cell: Byte, route: seq<Byte>)
    requires |ws| == 256 && |cs| == 256 && Mirrored(ws) && Flooded(ws, cs, target)
    requires Route(ws, cell, route, target) && |route| < MAX_COST
    ensures cs[cell] <= |route|
    decreases |route|
  {
    if route != [] {
      var next := Neighbour(cell, route[0]);
      RouteBound(ws, cs, target, next, route[1..]);
      NeighbourInverse(cell, route[0]);
      assert EdgeAgrees(ws, cell, route[0]);
    }
  }

  /** Over any walls, a reached cell has a route of exactly its cost. */
  lemma {:induction false} DescentRoute(ws: seq<bv8>, cs: seq<Byte>, target: Byte, cell: Byte)
      returns (route: seq<Byte>)
    requires |ws| == 256 && |cs| == 256 && Flooded(ws, cs, target)
    requires cs[cell] < MAX_COST
    ensures Route(ws, cell, route, target) && |route| == cs[cell]
    decreases cs[cell]
  {
    if cs[cell] == 0 {
      route := [];
    } else {
      assert HasDescent(ws, cs, cell);
      var d: Byte :| d < 4 && HasExit(ws, cell, d) && cs[Neighbour(cell, d)] as int + 1 == cs[cell];
      var rest := DescentRoute(ws, cs, target, Neighbour(cell, d));
      route := [d] + rest;
      assert route[1..] == rest;
    }
  }

  /** The flooded cost is the shortest route length: a reached cell has a
      route of exactly its cost and none shorter, and a cell left at 255 has
      no route shorter than 255 moves. */
  lemma CostIsDistance(ws: seq<bv8>, cs: seq<Byte>, target: Byte, cell: Byte)
    requires |ws| == 256 && |cs| == 256 && Mirrored(ws) && Flooded(ws, cs, target)
    ensures cs[cell] < MAX_COST ==> exists route :: Route(ws, cell, route, target) && |route| == cs[cell]
    ensures forall route | Route(ws, cell, route, target) && |route| < MAX_COST :: cs[cell] <= |route|
  {
    if cs[cell] < MAX_COST {
      var route := DescentRoute(ws, cs, target, cell);
    }
    forall route | Route(ws, cell, route, target) && |route| < MAX_COST ensures cs[cell] <= |route| {
      RouteBound(ws, cs, target, cell, route);
    }
  }

  /** Two completed floods of the same walls towards the same target agree:
      the flood's result does not depend on the order cells are examined. */
  lemma FloodUnique(ws: seq<bv8>, cs1: seq<Byte>, cs2: seq<Byte>, target: Byte)
    requires |ws| == 256 && |cs1| == 256 && |cs2| == 256 && Mirrored(ws)
    requires Flooded(ws, cs1, target) && Flooded(ws, cs2, target)
    ensures cs1 == cs2
  {
    forall cell: Byte ensures cs1[cell] <= cs2[cell] {
      if cs2[cell] < MAX_COST {
        var route := DescentRoute(ws, cs2, target, cell);
        RouteBound(ws, cs1, target, cell, route);
      }
    }
    forall cell: Byte ensures cs2[cell] <= cs1[cell] {
      if cs1[cell] < MAX_COST {
        var route := DescentRoute(ws, cs1, target, cell);
        RouteBound(ws, cs2, target, cell, route);
      }
    }
    assert forall i | 0 <= i < 256 :: cs1[i] == cs2[i];
  }

  // ---------------------------------------------------------------------
  // Choosing the direction to move

  /** The cost seen through an edge: the neighbour's cost when the edge is
      open, MAX_COST through a wall or for a direction outside 0..3. */
  function NeighbourCostOf(ws: seq<bv8>, cs: seq<Byte>, cell: Byte, direction: Byte): Byte
    requires |ws| == 256 && |cs| == 256
  {
    if direction < 4 && HasExit(ws, cell, direction) then cs[Neighbour(cell, direction)] else MAX_COST
  }

  /** The order in which directions are examined: ahead, right, left, behind. */
  function ScanOrder(start: Byte): seq<Byte>
  {
    [start, (start + 1) % 4, (start + 3) % 4, (start + 2) % 4]
  }

  function ScanCost(ws: seq<bv8>, cs: seq<Byte>, cell: Byte, start: Byte, j: int): Byte
    requires |ws| == 256 && |cs| == 256 && 0 <= j < 4
  {
    NeighbourCostOf(ws, cs, cell, ScanOrder(start)[j])
  }

  /** `r` is the direction a move from `cell` should take: when some examined
      neighbour is cheaper than the cell itself, it is the first direction in
      scan order whose cost is the smallest of all four; otherwise it is
      INVALID_DIRECTION, which is the same number as NORTH. */
  ghost predicate SmallestChoice(ws: seq<bv8>, cs: seq<Byte>, cell: Byte, start: Byte, r: Byte)
    requires |ws| == 256 && |cs| == 256
  {
    if exists j | 0 <= j < 4 :: ScanCost(ws, cs, cell, start, j) < cs[cell] then
      exists j | 0 <= j < 4 ::
        && r == ScanOrder(start)[j]
        && ScanCost(ws, cs, cell, start, j) < cs[cell]
        && (forall i | 0 <= i < 4 :: ScanCost(ws, cs, cell, start, j) <= ScanCost(ws, cs, cell, start, i))
        && (forall i | 0 <= i < j :: ScanCost(ws, cs, cell, start, j) < ScanCost(ws, cs, cell, start, i))
    else
      r == INVALID_DIRECTION
  }

  /** For a heading 0..3 the scan examines each of the four directions. */
  lemma ScanCoversAll(start: Byte, direction: Byte)
    requires start < 4 && direction < 4
    ensures exists j | 0 <= j < 4 :: ScanOrder(start)[j] == direction
  {
    if direction == start {
      assert ScanOrder(start)[0] == direction;
    } else if direction == (start + 1) % 4 {
      assert ScanOrder(start)[1] == direction;
    } else if direction == (start + 3) % 4 {
      assert ScanOrder(start)[2] == direction;
    } else {
      assert ScanOrder(start)[3] == direction;
    }
  }

  /** On a flooded maze with mirrored walls, from any reached cell other than
      the target the chosen direction is open and leads one move closer. */
  lemma ChoiceDescends(ws: seq<bv8>, cs: seq<Byte>, target: Byte, cell: Byte, start: Byte, r: Byte)
    requires |ws| == 256 && |cs| == 256 && Mirrored(ws) && Flooded(ws, cs, target)
    requires start < 4 && 0 < cs[cell] < MAX_COST
    requires SmallestChoice(ws, cs, cell, start, r)
    ensures r < 4 && HasExit(ws, cell, r) && cs[Neighbour(cell, r)] as int + 1 == cs[cell]
  {
    assert HasDescent(ws, cs, cell);
    var d: Byte :| d < 4 && HasExit(ws, cell, d) && cs[Neighbour(cell, d)] as int + 1 == cs[cell];
    ScanCoversAll(start, d);
    var jd :| 0 <= jd < 4 && ScanOrder(start)[jd] == d;
    assert ScanCost(ws, cs, cell, start, jd) < cs[cell];
    var j :| 0 <= j < 4 && r == ScanOrder(start)[j]
      && ScanCost(ws, cs, cell, start, j) < cs[cell]
      && (forall i | 0 <= i < 4 :: ScanCost(ws, cs, cell, start, j) <= ScanCost(ws, cs, cell, start, i));
    assert ScanCost(ws, cs, cell, start, j) <= ScanCost(ws, cs, cell, start, jd);
    assert r < 4 && HasExit(ws, cell, r);
    var next := Neighbour(cell, r);
    NeighbourInverse(cell, r);
    assert EdgeAgrees(ws, cell, r);
  }

  /** Whatever the starting heading, the choice is one of the four
      directions: a heading outside 0..3 is seen at MAX_COST and never wins. */
  lemma ChoiceInRange(ws: seq<bv8>, cs: seq<Byte>, cell: Byte, start: Byte, r: Byte)
    requires |ws| == 256 && |cs| == 256
    requires SmallestChoice(ws, cs, cell, start, r)
    ensures r < 4
  {
    if exists j | 0 <= j < 4 :: ScanCost(ws, cs, cell, start, j) < cs[cell] {
      var j :| 0 <= j < 4 && r == ScanOrder(start)[j] && ScanCost(ws, cs, cell, start, j) < cs[cell];
      if j == 0 {
        assert NeighbourCostOf(ws, cs, cell, start) < MAX_COST;
      }
    }
  }

  /** At the target, or where no neighbour is cheaper, the choice is
      INVALID_DIRECTION (0): indistinguishable from a choice of NORTH. */
  lemma NoCheaperGivesZero(ws: seq<bv8>, cs: seq<Byte>, cell: Byte, start: Byte, r: Byte)
    requires |ws| == 256 && |cs| == 256
    requires forall d: Byte :: NeighbourCostOf(ws, cs, cell, d) >= cs[cell]
    requires SmallestChoice(ws, cs, cell, start, r)
    ensures r == NORTH
  {
    forall j | 0 <= j < 4 ensures ScanCost(ws, cs, cell, start, j) >= cs[cell] {
      assert NeighbourCostOf(ws, cs, cell, ScanOrder(start)[j]) >= cs[cell];
    }
  }

  /** Ties go to the direction examined first: when straight ahead is among
      the cheapest and cheaper than the cell, the choice is straight ahead. */
  lemma PrefersAhead(ws: seq<bv8>, cs: seq<Byte>, cell: Byte, start: Byte, r: Byte)
    requires |ws| == 256 && |cs| == 256
    requires NeighbourCostOf(ws, cs, cell, start) < cs[cell]
    requires forall d: Byte :: NeighbourCostOf(ws, cs, cell, start) <= NeighbourCostOf(ws, cs, cell, d)
    requires SmallestChoice(ws, cs, cell, start, r)
    ensures r == start
  {
    assert ScanCost(ws, cs, cell, start, 0) < cs[cell];
    var j :| 0 <= j < 4 && r == ScanOrder(start)[j]
      && ScanCost(ws, cs, cell, start, j) < cs[cell]
      && (forall i | 0 <= i < j :: ScanCost(ws, cs, cell, start, j) < ScanCost(ws, cs, cell, start, i));
  }
}
