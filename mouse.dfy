/*
 * The logical skeleton of the mouse: its position (`location`, a cell) and
 * its `heading` (a direction), the three wall flags it last sensed, and the
 * search and wall-follow loops that step it through the maze. Every motion
 * (the turns, the run to the next cell) is abstracted to "the manoeuvre
 * happened"; the sensor readings taken at each step, including the start
 * button, arrive as a sequence of `Sensed` values.
 */
module MazeMouse {
  import opened MazeWalls
  import opened MazeFlood
  import opened MazeMap

  /** What the sensors report at one step: the start button and the three
      wall detectors, relative to the mouse. */
  datatype Sensed = Sensed(buttonPressed: bool, leftWall: bool, frontWall: bool, rightWall: bool)

  /** A manoeuvre named by the change of heading it makes ("FRAL"). */
  datatype Turn = Ahead | Right | Around | Left

  function RightOf(heading: Byte): Byte { (heading + 1) % 4 }
  function LeftOf(heading: Byte): Byte { (heading + 3) % 4 }
  function Behind(heading: Byte): Byte { (heading + 2) % 4 }

  /** The number of quarter turns to the right a manoeuvre makes. */
  function Quarters(turn: Turn): int
  {
    match turn
    case Ahead => 0
    case Right => 1
    case Around => 2
    case Left => 3
  }

  /** `(newHeading - heading) & 0x3` on two's complement integers: the low
      two bits of the difference, which is its Euclidean remainder by 4. */
  function HeadingChange(heading: Byte, newHeading: Byte): (change: int)
    ensures 0 <= change < 4
    ensures (heading + change) % 4 == newHeading % 4
  {
    (newHeading - heading) % 4
  }

  /** The manoeuvre selected by a heading change of 0, 1, 2 or 3. */
  function TurnFor(change: int): (turn: Turn)
    requires 0 <= change < 4
    ensures Quarters(turn) == change
  {
    if change == 0 then Ahead
    else if change == 1 then Right
    else if change == 2 then Around
    else Left
  }

  /** The manoeuvre chosen case by case from the current and the new heading,
      as the older mouse code does; any pair it does not list turns nowhere. */
  function TurnByCases(heading: Byte, newHeading: Byte): Turn
  {
    if heading == NORTH then
      (if newHeading == EAST then Right else if newHeading == SOUTH then Around else if newHeading == WEST then Left else Ahead)
    else if heading == EAST then
      (if newHeading == SOUTH then Right else if newHeading == WEST then Around else if newHeading == NORTH then Left else Ahead)
    else if heading == SOUTH then
      (if newHeading == WEST then Right else if newHeading == NORTH then Around else if newHeading == EAST then Left else Ahead)
    else if heading == WEST then
      (if newHeading == NORTH then Right else if newHeading == EAST then Around else if newHeading == SOUTH then Left else Ahead)
    else Ahead
  }

  /** For headings 0..3 both ways of choosing the turn agree, and the turn
      carries the old heading onto the new one. */
  lemma TurnChoicesAgree(heading: Byte, newHeading: Byte)
    requires heading < 4 && newHeading < 4
    ensures TurnByCases(heading, newHeading) == TurnFor(HeadingChange(heading, newHeading))
    ensures (heading + Quarters(TurnByCases(heading, newHeading))) % 4 == newHeading
  {
  }

  /** Turning a heading 0..3 by its change towards a direction 0..3 faces
      that direction. */
  lemma ChangeArrives(heading: Byte, newHeading: Byte)
    requires heading < 4 && newHeading < 4
    ensures (heading + HeadingChange(heading, newHeading)) % 4 == newHeading
  {
  }

  /** The edge leaving `cell` in `direction`, seen from either side. */
  predicate OnEdge(cell: Byte, direction: Byte, c: Byte, d: Byte)
    requires direction < 4
  {
    (c == cell && d == direction) || (c == Neighbour(cell, direction) && d == Opposite(direction))
  }

  /** The wall data after the walls sensed in `cell` are recorded: the front
      flag names the heading, the right flag the heading + 1 and the left
      flag the heading + 3 (mod 4). Only flags that are set place a wall;
      a heading outside 0..3 records nothing. */
  function SensedWalls(ws: seq<bv8>, cell: Byte, heading: Byte, left: bool, front: bool, right: bool): (r: seq<bv8>)
    requires |ws| == 256
    ensures |r| == 256
  {
    if heading < 4 then
      var w1 := if front then WithWall(ws, cell, heading) else ws;
      var w2 := if right then WithWall(w1, cell, RightOf(heading)) else w1;
      if left then WithWall(w2, cell, LeftOf(heading)) else w2
    else ws
  }

  /** Every wall of `before` is still in `after`. */
  ghost predicate WallsKept(before: seq<bv8>, after: seq<bv8>)
    requires |before| == 256 && |after| == 256
  {
    forall c: Byte, d: Byte | d < 4 :: HasWall(before, c, d) ==> HasWall(after, c, d)
  }

  lemma WallsKeptTransitive(a: seq<bv8>, b: seq<bv8>, c: seq<bv8>)
    requires |a| == 256 && |b| == 256 && |c| == 256
    requires WallsKept(a, b) && WallsKept(b, c)
    ensures WallsKept(a, c)
  {
  }

  /** Placing one wall adds exactly that edge, on both of its sides. */
  lemma WithWallEdge(ws: seq<bv8>, cell: Byte, direction: Byte, c: Byte, d: Byte)
    requires |ws| == 256 && d < 4
    ensures HasWall(WithWall(ws, cell, direction), c, d) <==>
      HasWall(ws, c, d) || (direction < 4 && OnEdge(cell, direction, c, d))
  {
    WithWallSetsEdge(ws, cell, direction);
  }

  /** Recording the sensed walls adds exactly the sensed edges (each seen
      from both sides) and keeps every other wall as it was. */
  lemma SensedWallsEdges(ws: seq<bv8>, cell: Byte, heading: Byte, left: bool, front: bool, right: bool)
    requires |ws| == 256
    ensures forall c: Byte, d: Byte | d < 4 ::
      HasWall(SensedWalls(ws, cell, heading, left, front, right), c, d) <==>
        || HasWall(ws, c, d)
        || (heading < 4 && front && OnEdge(cell, heading, c, d))
        || (heading < 4 && right && OnEdge(cell, RightOf(heading), c, d))
        || (heading < 4 && left && OnEdge(cell, LeftOf(heading), c, d))
  {
    if heading < 4 {
      var w1 := if front then WithWall(ws, cell, heading) else ws;
      var w2 := if right then WithWall(w1, cell, RightOf(heading)) else w1;
      forall c: Byte, d: Byte | d < 4
        ensures HasWall(SensedWalls(ws, cell, heading, left, front, right), c, d) <==>
          || HasWall(ws, c, d)
          || (front && OnEdge(cell, heading, c, d))
          || (right && OnEdge(cell, RightOf(heading), c, d))
          || (left && OnEdge(cell, LeftOf(heading), c, d))
      {
        WithWallEdge(ws, cell, heading, c, d);
        WithWallEdge(w1, cell, RightOf(heading), c, d);
        WithWallEdge(w2, cell, LeftOf(heading), c, d);
      }
    }
  }

  /** Mapping never removes a wall, records every wall it was told about,
      and keeps the two sides of every wall in agreement. */
  lemma SensedWallsOnlyAdd(ws: seq<bv8>, cell: Byte, heading: Byte, left: bool, front: bool, right: bool)
    requires |ws| == 256 && Mirrored(ws)
    ensures var r := SensedWalls(ws, cell, heading, left, front, right);
      && WallsKept(ws, r)
      && Mirrored(r)
      && (heading < 4 && front ==> HasWall(r, cell, heading))
      && (heading < 4 && right ==> HasWall(r, cell, RightOf(heading)))
      && (heading < 4 && left ==> HasWall(r, cell, LeftOf(heading)))
  {
    SensedWallsEdges(ws, cell, heading, left, front, right);
    if heading < 4 {
      var w1 := if front then WithWall(ws, cell, heading) else ws;
      var w2 := if right then WithWall(w1, cell, RightOf(heading)) else w1;
      WithWallMirrored(ws, cell, heading);
      WithWallMirrored(w1, cell, RightOf(heading));
      WithWallMirrored(w2, cell, LeftOf(heading));
    }
  }

  /** One visit to a cell (recording its walls, then marking it visited)
      keeps every wall already known. */
  lemma MappingKeepsWalls(ws: seq<bv8>, cell: Byte, heading: Byte, s: Sensed)
    requires |ws| == 256 && Mirrored(ws)
    ensures WallsKept(ws, Visit(SensedWalls(ws, cell, heading, s.leftWall, s.frontWall, s.rightWall), cell))
  {
    var r := SensedWalls(ws, cell, heading, s.leftWall, s.frontWall, s.rightWall);
    SensedWallsOnlyAdd(ws, cell, heading, s.leftWall, s.frontWall, s.rightWall);
    VisitKeepsWalls(r, cell);
  }

  /** Exactly the walls known before any exploration, with no cell visited:
      the map `initialise_maze` lays down. */
  ghost predicate FreshMap(ws: seq<bv8>)
    requires |ws| == 256
  {
    forall cell: Byte, b | 0 <= b < 8 :: HasBit(ws[cell], b) <==> b < 4 && InitialWall(cell, b)
  }

  /** Every wall known before any exploration is present. */
  ghost predicate HasInitialWalls(ws: seq<bv8>)
    requires |ws| == 256
  {
    forall cell: Byte, d: Byte | d < 4 && InitialWall(cell, d) :: HasWall(ws, cell, d)
  }

  /** Walls that are kept include the initial ones once these are present. */
  lemma InitialWallsSurvive(before: seq<bv8>, after: seq<bv8>)
    requires |before| == 256 && |after| == 256
    requires HasInitialWalls(before) && WallsKept(before, after)
    ensures HasInitialWalls(after)
  {
    forall cell: Byte, d: Byte | d < 4 && InitialWall(cell, d)
      ensures HasWall(after, cell, d)
    {
      assert HasWall(before, cell, d);
    }
  }

  /** A freshly laid map holds every initial wall. */
  lemma InitialWallsPlaced(ws: seq<bv8>)
    requires |ws| == 256 && FreshMap(ws)
    ensures HasInitialWalls(ws)
  {
    forall cell: Byte, d: Byte | d < 4 && InitialWall(cell, d)
      ensures HasWall(ws, cell, d)
    {
      assert HasBit(ws[cell], d);
    }
  }

  /** The position of the first reading, from `i` on, taken with the button
      pressed; |feed| when there is none. */
  function FirstPressFrom(feed: seq<Sensed>, i: nat): (k: nat)
    requires i <= |feed|
    ensures i <= k <= |feed|
    ensures k < |feed| ==> feed[k].buttonPressed
    ensures forall j | i <= j < k :: !feed[j].buttonPressed
    decreases |feed| - i
  {
    if i == |feed| then i
    else if feed[i].buttonPressed then i
    else FirstPressFrom(feed, i + 1)
  }

  /** The number of steps a loop takes before the button stops it, at most. */
  function FirstPress(feed: seq<Sensed>): nat
  {
    FirstPressFrom(feed, 0)
  }

  /** The direction chosen by the wall follower: left if the left is open,
      else ahead, else right, else back the way it came. */
  function FollowHeading(heading: Byte, s: Sensed): Byte
  {
    if !s.leftWall then LeftOf(heading)
    else if !s.frontWall then heading
    else if !s.rightWall then RightOf(heading)
    else Behind(heading)
  }

  /** The relative directions in the follower's order of preference. */
  function FollowOrder(heading: Byte): seq<Byte>
  {
    [LeftOf(heading), heading, RightOf(heading), Behind(heading)]
  }

  /** Whether the `k`-th direction of the follower's order is open; the way
      back is always taken as open. */
  predicate FollowOpen(s: Sensed, k: int)
  {
    (k == 0 && !s.leftWall) || (k == 1 && !s.frontWall) || (k == 2 && !s.rightWall) || k == 3
  }

  /** The follower takes the first open direction in its order of preference:
      left-hand rule. */
  lemma FollowIsFirstOpen(heading: Byte, s: Sensed)
    ensures exists k | 0 <= k < 4 ::
      && FollowOpen(s, k)
      && FollowHeading(heading, s) == FollowOrder(heading)[k]
      && (forall j | 0 <= j < k :: !FollowOpen(s, j))
  {
    if !s.leftWall {
      assert FollowOpen(s, 0);
    } else if !s.frontWall {
      assert FollowOpen(s, 1);
    } else if !s.rightWall {
      assert FollowOpen(s, 2);
    } else {
      assert FollowOpen(s, 3);
    }
  }

  class Mouse {
    var heading: Byte
    var location: Byte
    var leftWall: bool
    var frontWall: bool
    var rightWall: bool
    var handStart: bool

    /** The maze map the mouse records into and plans with. */
    const maze: Maze

    ghost predicate Valid()
      reads maze.walls
    {
      maze.Valid()
    }

    /** A mouse in the start cell, facing north. */
    constructor (maze: Maze)
      ensures this.maze == maze
      ensures location == START && heading == NORTH && !handStart
      ensures !leftWall && !frontWall && !rightWall
    {
      this.maze := maze;
      handStart := false;
      location := START;
      heading := NORTH;
      leftWall, frontWall, rightWall := false, false, false;
    }

    method Init()
      modifies this
      ensures location == START && heading == NORTH && !handStart
      ensures leftWall == old(leftWall) && frontWall == old(frontWall) && rightWall == old(rightWall)
    {
      handStart := false;
      location := START;
      heading := NORTH;
    }

    /** Latch the wall detectors' current answers. */
    method CheckTheWalls(s: Sensed)
      modifies this
      ensures leftWall == s.leftWall && frontWall == s.frontWall && rightWall == s.rightWall
      ensures location == old(location) && heading == old(heading) && handStart == old(handStart)
    {
      rightWall := s.rightWall;
      leftWall := s.leftWall;
      frontWall := s.frontWall;
    }

    /** Change the heading without turning. */
    method SetHeading(newHeading: Byte)
      modifies this
      ensures heading == newHeading
      ensures location == old(location) && handStart == old(handStart)
      ensures leftWall == old(leftWall) && frontWall == old(frontWall) && rightWall == old(rightWall)
    {
      heading := newHeading;
    }

    /** Turn on the spot to face `newHeading`; the manoeuvre made is returned
        and it turns the old heading into the new one. */
    method TurnToFace(newHeading: Byte) returns (turn: Turn)
      modifies this
      ensures heading == newHeading
      ensures (old(heading) + Quarters(turn)) % 4 == newHeading % 4
      ensures location == old(location) && handStart == old(handStart)
      ensures leftWall == old(leftWall) && frontWall == old(frontWall) && rightWall == old(rightWall)
    {
      var change := HeadingChange(heading, newHeading);
      if change == 0 {
        turn := Ahead;
      } else if change == 1 {
        turn := Right;
      } else if change == 2 {
        turn := Around;
      } else {
        turn := Left;
      }
      heading := newHeading;
    }

    /** Record the latched wall flags as walls of the current cell, in the
        directions they point given the heading, and mark the cell visited. */
    method UpdateMap()
      requires Valid()
      modifies maze.walls
      ensures Valid()
      ensures maze.walls[..] == Visit(SensedWalls(old(maze.walls[..]), location, heading, leftWall, frontWall, rightWall), location)
    {
      ghost var before := maze.walls[..];
      if heading == NORTH {
        RecordWalls(NORTH, EAST, WEST);
      } else if heading == EAST {
        RecordWalls(EAST, SOUTH, NORTH);
      } else if heading == SOUTH {
        RecordWalls(SOUTH, WEST, EAST);
      } else if heading == WEST {
        RecordWalls(WEST, NORTH, SOUTH);
      }
      maze.MarkCellVisited(location);
    }

    /** Place a wall for each latched flag: ahead is `front`, to the right
        `right`, to the left `left` (absolute directions). */
    method RecordWalls(front: Byte, right: Byte, left: Byte)
      requires Valid()
      modifies maze.walls
      ensures Valid()
      ensures maze.walls[..] ==
        var w1 := if frontWall then WithWall(old(maze.walls[..]), location, front) else old(maze.walls[..]);
        var w2 := if rightWall then WithWall(w1, location, right) else w1;
        if leftWall then WithWall(w2, location, left) else w2
    {
      if frontWall {
        maze.SetWallPresent(location, front);
      }
      if rightWall {
        maze.SetWallPresent(location, right);
      }
      if leftWall {
        maze.SetWallPresent(location, left);
      }
    }

    /** Move into the cell ahead, latch the wall detectors there and record
        what they see. */
    method EnterCell(s: Sensed)
      requires Valid()
      modifies this, maze.walls
      ensures Valid()
      ensures location == Neighbour(old(location), old(heading))
      ensures heading == old(heading) && handStart == old(handStart)
      ensures leftWall == s.leftWall && frontWall == s.frontWall && rightWall == s.rightWall
      ensures maze.walls[..] == Visit(SensedWalls(old(maze.walls[..]), location, heading, s.leftWall, s.frontWall, s.rightWall), location)
    {
      location := Neighbour(location, heading);
      CheckTheWalls(s);
      UpdateMap();
    }

    /** Re-flood towards `target` and turn to the cheapest neighbour, or
        turn round when the target has been reached. */
    method Replan(target: Byte)
      requires Valid()
      modifies this, maze.cost
      ensures Valid()
      ensures location == old(location) && handStart == old(handStart)
      ensures leftWall == old(leftWall) && frontWall == old(frontWall) && rightWall == old(rightWall)
      ensures Flooded(maze.walls[..], maze.cost[..], target)
      ensures location == target ==> heading == Behind(old(heading))
      ensures location != target && old(heading) < 4 ==> SmallestChoice(maze.walls[..], maze.cost[..], location, old(heading), heading)
      ensures location != target && old(heading) < 4 && maze.cost[location] < MAX_COST ==>
        heading < 4 && HasExit(maze.walls[..], location, heading) && maze.cost[Neighbour(location, heading)] as int + 1 == maze.cost[location]
    {
      maze.FloodMaze(target);
      ghost var ws, cs := maze.walls[..], maze.cost[..];
      ghost var h0 := heading;
      assert Mirrored(ws) && Flooded(ws, cs, target);
      var newHeading := FaceCheapest(target);
      if location != target && h0 < 4 && cs[location] < MAX_COST {
        ChoiceDescends(ws, cs, target, location, h0, newHeading);
      }
    }

    /** Turn to the cheapest neighbour as the costs stand, or turn round when
        the target has been reached. */
    method FaceCheapest(target: Byte) returns (newHeading: Byte)
      requires maze.Shape()
      modifies this
      ensures location == old(location) && handStart == old(handStart)
      ensures leftWall == old(leftWall) && frontWall == old(frontWall) && rightWall == old(rightWall)
      ensures SmallestChoice(maze.walls[..], maze.cost[..], location, old(heading), newHeading)
      ensures location == target ==> heading == Behind(old(heading))
      ensures location != target && old(heading) < 4 ==> heading == newHeading
    {
      newHeading := maze.DirectionToSmallest(location, heading);
      ChoiceInRange(maze.walls[..], maze.cost[..], location, heading, newHeading);
      var change := HeadingChange(heading, newHeading);
      Steer(location == target, change, newHeading);
    }

    /** The turn at the end of a search step: round on arrival at the
        target, otherwise right, behind or left by the heading change
        towards `newHeading` (a change of 0 keeps the heading). */
    method Steer(arrived: bool, change: int, ghost newHeading: Byte)
      requires change == HeadingChange(heading, newHeading)
      modifies this
      ensures location == old(location) && handStart == old(handStart)
      ensures leftWall == old(leftWall) && frontWall == old(frontWall) && rightWall == old(rightWall)
      ensures arrived ==> heading == Behind(old(heading))
      ensures !arrived && old(heading) < 4 && newHeading < 4 ==> heading == newHeading
    {
      if heading < 4 && newHeading < 4 {
        ChangeArrives(heading, newHeading);
      }
      if arrived {
        heading := (heading + 2) % 4;
      } else {
        if change == 1 {
          heading := (heading + 1) % 4;
        } else if change == 2 {
          heading := (heading + 2) % 4;
        } else if change == 3 {
          heading := (heading + 3) % 4;
        }
      }
    }

    /** One pass of the search loop: move to the cell ahead, sense and record
        its walls, re-flood towards `target` and turn to the cheapest
        neighbour, or turn round on arrival. */
    method SearchStep(target: Byte, s: Sensed)
      requires Valid()
      modifies this, maze.walls, maze.cost
      ensures Valid()
      ensures location == Neighbour(old(location), old(heading))
      ensures leftWall == s.leftWall && frontWall == s.frontWall && rightWall == s.rightWall
      ensures handStart == old(handStart)
      ensures maze.walls[..] == Visit(SensedWalls(old(maze.walls[..]), location, old(heading), s.leftWall, s.frontWall, s.rightWall), location)
      ensures Flooded(maze.walls[..], maze.cost[..], target)
      ensures location == target ==> heading == Behind(old(heading))
      ensures location != target && old(heading) < 4 ==> SmallestChoice(maze.walls[..], maze.cost[..], location, old(heading), heading)
      ensures location != target && old(heading) < 4 && maze.cost[location] < MAX_COST ==>
        heading < 4 && HasExit(maze.walls[..], location, heading) && maze.cost[Neighbour(location, heading)] as int + 1 == maze.cost[location]
    {
      EnterCell(s);
      Replan(target);
    }

    /** Search to `target`, one step per sensor reading, until the target is
        reached, the button is pressed or the readings run out. The result is
        always 0: no "no route" result is ever produced. */
    method SearchTo(target: Byte, feed: seq<Sensed>) returns (result: int, ghost steps: nat)
      requires Valid()
      modifies this, maze.walls, maze.cost
      ensures Valid()
      ensures result == 0
      ensures steps <= FirstPress(feed)
      ensures location == target || steps == FirstPress(feed)
      ensures WallsKept(old(maze.walls[..]), maze.walls[..])
      ensures Flooded(maze.walls[..], maze.cost[..], target)
      ensures handStart == old(handStart)
    {
      maze.FloodMaze(target);
      var i := 0;
      while location != target && i < |feed|
        invariant 0 <= i <= |feed|
        invariant Valid()
        invariant Flooded(maze.walls[..], maze.cost[..], target)
        invariant WallsKept(old(maze.walls[..]), maze.walls[..])
        invariant FirstPressFrom(feed, i) == FirstPress(feed)
        invariant handStart == old(handStart)
        decreases |feed| - i
      {
        if feed[i].buttonPressed {
          break;
        }
        ghost var before, h := maze.walls[..], heading;
        SearchStep(target, feed[i]);
        MappingKeepsWalls(before, location, h, feed[i]);
        i := i + 1;
      }
      steps := i;
      result := 0;
    }

    /** One pass of the wall-follow loop: move to the cell ahead, sense and
        record its walls, re-flood towards the maze goal, then (unless at
        `target`) take the first open way in the order left, ahead, right,
        back. */
    method FollowStep(target: Byte, s: Sensed)
      requires Valid()
      modifies this, maze.walls, maze.cost
      ensures Valid()
      ensures location == Neighbour(old(location), old(heading))
      ensures leftWall == s.leftWall && frontWall == s.frontWall && rightWall == s.rightWall
      ensures handStart == old(handStart)
      ensures maze.walls[..] == Visit(SensedWalls(old(maze.walls[..]), location, old(heading), s.leftWall, s.frontWall, s.rightWall), location)
      ensures Flooded(maze.walls[..], maze.cost[..], maze.goal)
      ensures location == target ==> heading == old(heading)
      ensures location != target ==> heading == FollowHeading(old(heading), s)
    {
      EnterCell(s);
      maze.FloodMaze(maze.goal);
      if location == target {
      } else if !leftWall {
        heading := (heading + 3) % 4;
      } else if !frontWall {
      } else if !rightWall {
        heading := (heading + 1) % 4;
      } else {
        heading := (heading + 2) % 4;
      }
    }

    /** Place the mouse in the start cell facing north, clear the map to the
        outer boundary and flood it towards the maze goal. */
    method ResetForFollow()
      requires maze.Shape()
      modifies this, maze.walls, maze.cost
      ensures Valid() && handStart
      ensures location == START && heading == NORTH
      ensures FreshMap(maze.walls[..])
      ensures Flooded(maze.walls[..], maze.cost[..], maze.goal)
    {
      handStart := true;
      location := START;
      heading := NORTH;
      maze.InitialiseMaze();
      maze.FloodMaze(maze.goal);
    }

    /** Follow the left-hand wall from the start cell, facing north, over a
        freshly initialised map, until `target` is reached, the button is
        pressed or the readings run out. */
    method FollowTo(target: Byte, feed: seq<Sensed>) returns (ghost steps: nat)
      requires maze.Shape()
      modifies this, maze.walls, maze.cost
      ensures Valid() && handStart
      ensures steps <= FirstPress(feed)
      ensures location == target || steps == FirstPress(feed)
      ensures Flooded(maze.walls[..], maze.cost[..], maze.goal)
      ensures HasInitialWalls(maze.walls[..])
      ensures steps == 0 ==> location == START && heading == NORTH && FreshMap(maze.walls[..])
    {
      ResetForFollow();
      ghost var goal := maze.goal;
      InitialWallsPlaced(maze.walls[..]);
      var i := 0;
      while location != target && i < |feed|
        invariant 0 <= i <= |feed|
        invariant Valid() && handStart
        invariant maze.goal == goal && Flooded(maze.walls[..], maze.cost[..], goal)
        invariant HasInitialWalls(maze.walls[..])
        invariant FirstPressFrom(feed, i) == FirstPress(feed)
        invariant i == 0 ==> location == START && heading == NORTH && FreshMap(maze.walls[..])
        decreases |feed| - i
      {
        if feed[i].buttonPressed {
          break;
        }
        ghost var before, h := maze.walls[..], heading;
        FollowStep(target, feed[i]);
        MappingKeepsWalls(before, location, h, feed[i]);
        InitialWallsSurvive(before, maze.walls[..]);
        i := i + 1;
      }
      steps := i;
    }

    /** Search from the start cell, facing north, to the maze goal and then
        back to the start; the result is always 0. */
    method SearchMaze(outward: seq<Sensed>, homeward: seq<Sensed>)
      returns (result: int, ghost midLocation: Byte, ghost outSteps: nat, ghost homeSteps: nat)
      requires Valid()
      modifies this, maze.walls, maze.cost
      ensures Valid() && !handStart
      ensures result == 0
      ensures outSteps <= FirstPress(outward) && (midLocation == maze.goal || outSteps == FirstPress(outward))
      ensures homeSteps <= FirstPress(homeward) && (location == START || homeSteps == FirstPress(homeward))
      ensures WallsKept(old(maze.walls[..]), maze.walls[..])
      ensures Flooded(maze.walls[..], maze.cost[..], START)
    {
      handStart := true;
      location := START;
      heading := NORTH;
      ghost var before := maze.walls[..];
      var outResult;
      var goal := maze.goal;
      outResult, outSteps := SearchTo(goal, outward);
      midLocation := location;
      ghost var between := maze.walls[..];
      handStart := false;
      var homeResult;
      homeResult, homeSteps := SearchTo(START, homeward);
      WallsKeptTransitive(before, between, maze.walls[..]);
      result := 0;
    }

    /** The older search: from the start cell, facing north, to the maze goal
        and back, without touching the hand-start flag. Each leg reports 0,
        so the error stop after either leg is never taken. */
    method SearchOutAndBack(outward: seq<Sensed>, homeward: seq<Sensed>)
      returns (result: int, ghost midLocation: Byte, ghost outSteps: nat, ghost homeSteps: nat)
      requires Valid()
      modifies this, maze.walls, maze.cost
      ensures Valid() && handStart == old(handStart)
      ensures result == 0
      ensures outSteps <= FirstPress(outward) && (midLocation == maze.goal || outSteps == FirstPress(outward))
      ensures homeSteps <= FirstPress(homeward) && (location == START || homeSteps == FirstPress(homeward))
      ensures WallsKept(old(maze.walls[..]), maze.walls[..])
      ensures Flooded(maze.walls[..], maze.cost[..], START)
    {
      location := START;
      heading := NORTH;
      ghost var before := maze.walls[..];
      var outResult;
      var goal := maze.goal;
      outResult, outSteps := SearchTo(goal, outward);
      midLocation := location;
      ghost var between := maze.walls[..];
      var homeResult;
      homeResult, homeSteps := SearchTo(START, homeward);
      WallsKeptTransitive(before, between, maze.walls[..]);
      result := 0;
    }
  }
}
