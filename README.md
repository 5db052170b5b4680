# mazerunner-core: maze map, flood fill and search logic

This project models the logical core of mazerunner-core, the firmware of a
micromouse robot that maps a 16x16 maze while driving through it:

- **The maze map** (`MazeWalls`, `MazeFlood`, `MazeMap`). It is a table of
  256 wall bytes and a table of 256 costs, with cells numbered
  `16*column + row`. One bit per direction marks a wall, mirrored into the
  cell on the other side. Flooding is a breadth-first search that gives every
  cell its distance in moves to a target. Choosing the next move scans ahead,
  right, left and behind for the cheapest neighbour.
- **The mouse** (`MazeMouse`). It keeps its location, heading and three
  latched wall flags. Each step of the search loop moves one cell, records
  the walls it senses, re-floods the map and turns towards the cheapest
  neighbour; at the target it turns round. The wall follower takes the first
  open way in the order left, ahead, right, back. Motion is abstracted to
  "the manoeuvre happened". The readings taken at each step, the start button
  included, arrive as a sequence of `Sensed` values.
- **Supporting pieces**:
  - the ring-buffer `Queue` (`RingQueue`);
  - the bounded `List` (`BoundedList`);
  - the command-line integer scanner `read_integer` (`LineParsing`);
  - the analogue switch decoder (`AnalogueSwitches`);
  - the integer part of the wall-sensor update: the clamp, the wall flags
    and the steering-error choice (`WallSensors`).

What is proved:

- A flood leaves exactly the shortest-route distance in every reachable cell
  (`MazeFlood.CostIsDistance`), and that result is unique.
- From any reached cell other than the target, the direction chosen leads
  through an open edge to a cell one move nearer (`MazeFlood.ChoiceDescends`).
- Recording sensed walls never removes a known wall.
- The boundary laid by `initialise_maze` is exactly the outer edge plus the
  start cell's east wall, mirrored on both sides.
- The queue is FIFO within its capacity.
- `read_integer` stores a number written out in decimal (up to eight digits)
  exactly when it fits the target's 16-bit `int`, and otherwise stores it
  wrapped to 16 bits.
- The switch decoder splits readings into bands, and 16 means exactly a
  reading above 800.

All integers are unbounded. The source's 8-bit quantities (cells, directions,
costs) use the subset type `Byte`, with its wrap-around written out.

## Model

| member | source | states |
|---|---|---|
| MazeWalls.CellStepsWrap | mazerunner-core/maze.h:171-189 | north, east, south and west add 1, 16, 255 and 240 to the cell number modulo 256 |
| MazeWalls.NeighbourGeometry | mazerunner-core/maze.h:191-210 | away from the edge each direction moves one step on the grid (row +1, column +1, row -1, column -1); a direction outside 0..3 gives cell 255 |
| MazeWalls.NeighbourInverse | mazerunner-core/maze.h:191-210 | stepping to a neighbour and back in the opposite direction returns to the start cell, and no cell is its own neighbour |
| MazeWalls.WithWallSetsEdge | mazerunner-core/maze.h:89-111 | placing a wall sets bit d of the cell and the opposite bit of the neighbour, keeps every other bit of every byte, and changes nothing for a direction outside 0..3 |
| MazeWalls.WithWallIdempotent | mazerunner-core/maze.h:89-111 | placing the same wall twice is the same as placing it once |
| MazeWalls.WithWallMirrored | mazerunner-core/maze.h:89-111 | placing a wall keeps every wall recorded identically from both of its sides |
| MazeWalls.WithoutWallClearsEdge | mazerunner-core/maze.h:123-145 | removing a wall clears exactly the same two bits and keeps every other bit; a direction outside 0..3 changes nothing |
| MazeWalls.WithoutWallMirrored | mazerunner-core/maze.h:123-145 | removing a wall keeps the walls mirrored |
| MazeWalls.PresentThenAbsent | mazerunner-core/maze.h:123-145 | placing and then removing a wall equals removing it directly and leaves the edge open from both sides |
| MazeWalls.VisitKeepsWalls | mazerunner-core/maze.h:65-67 | marking a cell visited sets its whole 0xF0 nibble and changes no wall answer of any cell |
| MazeWalls.VisitMirrored | mazerunner-core/maze.h:65-67 | marking a cell visited keeps the walls mirrored |
| MazeWalls.InitialWallMirrored | mazerunner-core/maze.h:154-169 | the initial walls (outer boundary plus the start cell's east wall) are the same seen from either side of each edge, across the wrap-around included |
| MazeFlood.FloodStart | mazerunner-core/maze.h:257-262 | costs of 255 everywhere except 0 at the target, with the target queued, satisfy the flood invariant |
| MazeFlood.LowerNeighbour | mazerunner-core/maze.h:268-273 | lowering an open neighbour's cost to one more than the current cell's and queueing it keeps the flood invariant and lowers the cost sum |
| MazeFlood.KeepNeighbour | mazerunner-core/maze.h:268-274 | skipping a walled edge, or a neighbour already no more than one move further away, keeps the flood invariant |
| MazeFlood.PopHead | mazerunner-core/maze.h:263-265 | taking the head of the queue keeps the invariant, and the cell taken has a cost below 255 |
| MazeFlood.FloodDone | mazerunner-core/maze.h:263-277 | with the queue empty the costs are a completed flood: 0 only at the target, open edges at most one move apart, and every cost from 1 to 254 has an open edge to a neighbour one cheaper |
| MazeFlood.ExactDescent | mazerunner-core/maze.h:256-277 | over mirrored walls, a reached cell with a strictly cheaper open neighbour has one exactly one cheaper |
| MazeFlood.RouteBound | mazerunner-core/maze.h:256-277 | over mirrored walls, no route through open edges shorter than 255 moves is shorter than the flooded cost |
| MazeFlood.DescentRoute | mazerunner-core/maze.h:256-277 | a cell with a cost below 255 has a route through open edges to the target whose length is its cost |
| MazeFlood.CostIsDistance | mazerunner-core/maze.h:256-277 | the flooded cost is the shortest route length: a route of exactly that length exists, and every route under 255 moves is at least that long |
| MazeFlood.FloodUnique | mazerunner-core/maze.h:256-277 | two completed floods of the same mirrored walls towards the same target give identical costs |
| MazeFlood.ScanCoversAll | mazerunner-core/maze.h:289-316 | for a heading 0..3 the order ahead, right, left, behind examines each of the four directions |
| MazeFlood.ChoiceDescends | mazerunner-core/maze.h:289-321 | on a flooded map, from a reached cell other than the target the chosen direction is a valid direction through an open edge to a neighbour exactly one cheaper |
| MazeFlood.ChoiceInRange | mazerunner-core/maze.h:289-321 | the chosen direction is always 0..3, whatever the start heading |
| MazeFlood.NoCheaperGivesZero | mazerunner-core/maze.h:317-319 | when no neighbour is cheaper than the cell (at the target, or walled in at 255), the answer is 0, the same number as NORTH |
| MazeFlood.PrefersAhead | mazerunner-core/maze.h:294-298 | when the cell ahead is cheaper than the cell and no neighbour is cheaper than it, the heading is kept |
| MazeMap.Maze.constructor | mazerunner-core/maze.h:432-435 | a new map has zero costs and walls, mirrored, and the goal 0x77 |
| MazeMap.Maze.SetMazeGoal | mazerunner-core/maze.h:57-59 | the goal becomes the given cell |
| MazeMap.Maze.MarkCellVisited | mazerunner-core/maze.h:65-67 | the walls become the old walls with the cell marked visited, still mirrored, and the cell then counts as visited |
| MazeMap.Maze.CellIsVisited | mazerunner-core/maze.h:69-71 | a cell counts as visited exactly when bits 4 to 7 of its byte are all set |
| MazeMap.Maze.IsWall | mazerunner-core/maze.h:77-79 | true exactly when the wall bit for the direction is set in the cell's byte |
| MazeMap.Maze.IsExit | mazerunner-core/maze.h:73-75 | the exact negation of IsWall |
| MazeMap.Maze.SetWallPresent | mazerunner-core/maze.h:89-111 | the wall table becomes WithWall of the old one (both sides of the edge) and stays mirrored |
| MazeMap.Maze.SetWallAbsent | mazerunner-core/maze.h:123-145 | the wall table becomes WithoutWall of the old one and stays mirrored |
| MazeMap.Maze.InitialiseMaze | mazerunner-core/maze.h:154-169 | every cost is 0, and a bit of a wall byte is set exactly when it is the wall bit of an initial wall: every boundary edge from both sides and the start cell's east wall, with its north side open |
| MazeMap.Maze.PlaceBoundary | mazerunner-core/maze.h:160-165 | one round of the boundary loop turns the walls placed by k rounds into those placed by k+1 rounds |
| MazeMap.Maze.BoundaryRound | mazerunner-core/maze.h:160-165 | the four walls of round k add exactly round k's bits and their mirrors |
| MazeMap.Maze.StartWalls | mazerunner-core/maze.h:167-168 | the start cell's east wall and its open north side turn the full boundary into the initial walls |
| MazeMap.Maze.NeighbourCost | mazerunner-core/maze.h:215-244 | the neighbour's cost through an open edge, 255 through a wall or for a direction outside 0..3 |
| MazeMap.Maze.FloodMaze | mazerunner-core/maze.h:256-277 | afterwards the costs are a completed flood towards the target and the walls are unchanged |
| MazeMap.Maze.RelaxNeighbours | mazerunner-core/maze.h:264-275 | examining the four edges of the cell taken from the queue keeps the flood invariant and lowers the cost sum by at least the number of cells queued |
| MazeMap.Maze.RelaxEdge | mazerunner-core/maze.h:268-274 | one edge: the invariant advances by one direction, the current cell's cost is kept, and each queued neighbour lowers the cost sum |
| MazeMap.Maze.DirectionToSmallest | mazerunner-core/maze.h:289-321 | the result is the first direction in the order ahead, right, left, behind with the smallest cost, when it is cheaper than the cell; otherwise 0 |
| MazeMap.ScanStep | mazerunner-core/maze.h:294-316 | each comparison replaces the choice only on a strictly smaller cost and keeps the first minimum so far |
| MazeMap.ScanDone | mazerunner-core/maze.h:317-320 | after the four comparisons, the choice kept (or 0 when none was cheaper) is the smallest choice |
| MazeMouse.HeadingChange | mazerunner-core/mouse.h:527 | the masked difference is 0..3 and, added to the old heading, reaches the new one modulo 4 |
| MazeMouse.TurnFor | mazerunner-core/mouse.h:528-540 | the manoeuvre for a change of 0..3 turns exactly that many quarter turns right |
| MazeMouse.TurnChoicesAgree | mazerunner-core/mouse.cpp:521-562 | for headings 0..3 the older case-by-case choice of turn matches the masked-difference choice and lands on the new heading |
| MazeMouse.ChangeArrives | mazerunner-core/mouse.h:471-500 | turning a heading 0..3 by its change towards a direction 0..3 faces that direction |
| MazeMouse.SensedWallsEdges | mazerunner-core/mouse.h:544-593 | recording the flags sets exactly the front edge, the edge to the right (heading+1) and the edge to the left (heading+3) for the flags that are set, from both sides |
| MazeMouse.SensedWallsOnlyAdd | mazerunner-core/mouse.h:544-593 | recording sensed walls keeps every wall already known and the walls mirrored |
| MazeMouse.MappingKeepsWalls | mazerunner-core/mouse.h:427-429 | one visit to a cell (record, then mark visited) only ever adds walls |
| MazeMouse.FirstPressFrom | mazerunner-core/mouse.h:459-462 | the first reading from i on with the button pressed: every earlier one is unpressed |
| MazeMouse.FollowIsFirstOpen | mazerunner-core/mouse.h:384-401 | the follower takes the first open way in the order left, ahead, right, back |
| MazeMouse.Mouse.constructor | mazerunner-core/mouse.h:100-109 | a new mouse is in the start cell, facing north, not hand-started |
| MazeMouse.Mouse.Init | mazerunner-core/mouse.h:104-109 | start cell, facing north, not hand-started; the wall flags are kept; the same in mouse.cpp (lines 277-283) |
| MazeMouse.Mouse.CheckTheWalls | mazerunner-core/mouse.h:322-326 | the three wall flags become the detectors' answers; position and heading are kept; the same in mouse.cpp (lines 285-289) |
| MazeMouse.Mouse.SetHeading | mazerunner-core/mouse.h:522-524 | the heading becomes the given one and nothing else changes |
| MazeMouse.Mouse.TurnToFace | mazerunner-core/mouse.h:526-542 | the heading ends as the requested one, and the manoeuvre made turns the old heading onto it |
| MazeMouse.Mouse.UpdateMap | mazerunner-core/mouse.h:544-595 | the map becomes the sensed walls recorded for the heading, with the cell marked visited; a heading outside 0..3 records no wall; the same in mouse.cpp (lines 564-634) |
| MazeMouse.Mouse.RecordWalls | mazerunner-core/mouse.h:546-556 | one case of the mapping: a wall for each set flag, in the absolute directions given |
| MazeMouse.Mouse.EnterCell | mazerunner-core/mouse.h:466-468 | the location becomes the neighbour ahead before the walls are latched and recorded |
| MazeMouse.Mouse.Replan | mazerunner-core/mouse.h:469-501 | the map is flooded towards the target; at the target the heading is reversed, otherwise it becomes the smallest choice, which on a reached cell is an open edge one move nearer |
| MazeMouse.Mouse.FaceCheapest | mazerunner-core/mouse.h:470-501 | the turn made by the step: reversed at the target, otherwise the direction chosen by the scan |
| MazeMouse.Mouse.Steer | mazerunner-core/mouse.h:474-500 | arrival turns the heading round; otherwise turning by the masked change lands on the chosen direction |
| MazeMouse.Mouse.SearchStep | mazerunner-core/mouse.h:460-501 | one search step: move ahead, record the walls, re-flood, then turn round at the target or face a neighbour one move nearer |
| MazeMouse.Mouse.SearchTo | mazerunner-core/mouse.h:437-516 | the loop stops at the target, at the first button press, or when the sensor readings run out; walls are only added; the map ends flooded towards the target; the result is always 0; the same in mouse.cpp (lines 425-508) |
| MazeMouse.Mouse.FollowStep | mazerunner-core/mouse.h:365-401 | one follower step: move ahead, record the walls, flood towards the goal, then take the left-hand-rule heading unless at the target |
| MazeMouse.Mouse.ResetForFollow | mazerunner-core/mouse.h:346-350 | hand-started in the start cell facing north; every wall bit is set exactly as `initialise_maze` lays it (boundary and start walls, no cell visited), and that map is flooded towards the goal |
| MazeMouse.Mouse.FollowTo | mazerunner-core/mouse.h:344-414 | the follower stops at the target, at the first button press, or when the sensor readings run out; the map it starts from is the freshly initialised one, every initial wall survives the run, and the map ends flooded towards the goal; the same in mouse.cpp (lines 310-380) |
| MazeMouse.Mouse.SearchMaze | mazerunner-core/mouse.h:614-625 | search from the start to the goal and back: the outward leg ends at the goal and the homeward leg at the start, each unless a button press stops it or its readings run out; walls only added, flooded towards the start, hand-start cleared, result 0 |
| MazeMouse.Mouse.SearchOutAndBack | mazerunner-core/mouse.cpp:636-656 | the older out-and-back search: the outward leg ends at the goal and the homeward leg at the start, each unless a button press stops it or its readings run out; walls only added, flooded towards the start, hand-start untouched, result 0 |
| RingQueue.Queue.Advance | mazerunner-core/src/queue.h:44-61 | an index past the capacity wraps to slot 1, never 0, and stays within the buffer |
| RingQueue.Queue.constructor | mazerunner-core/src/queue.h:25-28 | a queue of the given capacity over capacity + 1 slots, empty, with head and tail at 0 |
| RingQueue.Queue.Default | mazerunner-core/queue.h:20-22 | a queue of capacity 64, empty, with head and tail at 0 |
| RingQueue.Queue.Size | mazerunner-core/src/queue.h:34-36 | the number of queued items, never above the capacity |
| RingQueue.Queue.Clear | mazerunner-core/src/queue.h:38-42 | the queue is empty with head and tail at 0 |
| RingQueue.Queue.Add | mazerunner-core/src/queue.h:44-51 | the item is appended at the back, so the size grows by one, and the indices stay within the buffer; the same in queue.h (lines 34-41) |
| RingQueue.Queue.Head | mazerunner-core/src/queue.h:53-61 | the oldest item is returned and removed (FIFO), so the size falls by one; the same in queue.h (lines 43-51) |
| BoundedList.List.constructor | mazerunner-core/src/list.h:39-42 | an empty list over a buffer of the given number of slots |
| BoundedList.List.Size | mazerunner-core/list.h:24-26 | the number of items added since the last clear, never above the slot count |
| BoundedList.List.Clear | mazerunner-core/list.h:28-30 | the list is empty; the buffer is untouched |
| BoundedList.List.Add | mazerunner-core/list.h:32-37 | a full list is unchanged; otherwise the item goes into the next slot and is appended to the contents; the same in src/list.h (lines 56-61) |
| BoundedList.List.Get | mazerunner-core/list.h:48 | slot i holds the i-th item added since the last clear |
| BoundedList.List.Contains | mazerunner-core/list.h:39-46 | true exactly when the item is in any slot of the buffer, which includes every item added since the last clear |
| BoundedList.List.ContainsAdded | mazerunner-core/list.h:39-46 | true exactly when the item was added since the last clear |
| BoundedList.StaleItemFound | mazerunner-core/list.h:39-46 | after adding an item and clearing the list, the list is empty yet the full-buffer scan still finds the item |
| LineParsing.DigitRun | mazerunner-core/src/utils.h:79-84 | the length of the leading run of digits: every character in it is a digit and the next one is not |
| LineParsing.ReadInteger | mazerunner-core/src/utils.h:69-89 | the result is the digit count modulo 256; with a count of 0 the value is unchanged; for a run of 1 to 255 digits the stored value is the number formed by the first eight digits, negated after '-', wrapped to the 16-bit `int` it is stored in |
| LineParsing.Wrap16 | mazerunner-core/src/utils.h:86 | the stored value lies in -32768..32767, differs from the number by a multiple of 65536, and is the number itself when that fits |
| LineParsing.StoredShown | mazerunner-core/src/utils.h:74-87 | a number of up to eight digits written in decimal and followed by a non-digit is stored unchanged exactly when it lies in -32768..32767 |
| LineParsing.FiveDigitsWrap | mazerunner-core/src/utils.h:85-87 | "40000" scans five digits and is stored as -25536 |
| LineParsing.ShowDecimal | mazerunner-core/src/utils.h:79-82 | the accumulation 10*n + digit reads back any number from its decimal form |
| LineParsing.ScanShown | mazerunner-core/src/utils.h:74-87 | any number below 10^8 written in decimal (after '-' or not) and followed by a non-digit scans back as itself, with its digit count |
| LineParsing.ScanDigits | mazerunner-core/src/utils.h:74-87 | one to eight digits after an optional '-' and before a non-digit scan as their decimal value, signed |
| LineParsing.RunOfDigitsThenOther | mazerunner-core/src/utils.h:79-84 | the scan stops exactly at the first non-digit |
| AnalogueSwitches.DecodeSwitches | mazerunner-core/switches.h:62-75 | the threshold-table loop gives 16 above 800, else the first setting whose midpoint the reading exceeds, else -1 |
| AnalogueSwitches.FirstAboveBounds | mazerunner-core/switches.h:69-73 | the setting found is the first whose midpoint is exceeded; every earlier midpoint is not |
| AnalogueSwitches.SettingBand | mazerunner-core/switches.h:63-73 | setting s is decoded exactly for readings at most 800, above its midpoint and at most the previous one |
| AnalogueSwitches.ReadingClasses | mazerunner-core/switches.h:56-75 | the result is always -1, 0..15 or 16; it is 16 exactly above 800 and -1 exactly at or below 22 |
| AnalogueSwitches.Switches.constructor | mazerunner-core/switches.h:50 | a switch input on the given channel |
| AnalogueSwitches.Switches.Update | mazerunner-core/switches.h:52-54 | the latched reading becomes the channel's dark reading |
| AnalogueSwitches.Switches.ReadFresh | mazerunner-core/switches.h:62-75 | takes a fresh dark reading, then decodes it |
| AnalogueSwitches.Switches.ButtonPressed | mazerunner-core/src/switches.h:39-41 | pressed exactly when the latched reading decodes to 16, that is when it is above 800 |
| AnalogueSwitches.Switches.ButtonPressedFresh | mazerunner-core/switches.h:77-79 | takes a fresh dark reading; pressed exactly when it decodes to 16, that is when it is above 800 |
| AnalogueSwitches.Switches.UpdateFrom | mazerunner-core/src/switches.h:15-17 | the latched reading becomes the channel's ADC result |
| AnalogueSwitches.Switches.Read | mazerunner-core/src/switches.h:25-37 | decodes the latched reading without taking a new one |
| WallSensors.SteeringMirror | mazerunner-core/src/sensors.h:274-295 | swapping the left and right readings, and the left- and right-wall modes, negates the steering error |
| WallSensors.CentredIsNotSteered | mazerunner-core/src/sensors.h:274-289 | under normal steering, with both side walls, or with steering off, side errors of 0 give no correction; normal steering with no side wall gives none whatever the readings |
| WallSensors.SteeringAgainstLeftOffset | mazerunner-core/src/sensors.h:274-289 | under normal or left-wall steering a larger left error never makes the error smaller |
| WallSensors.OcclusionExclusive | mazerunner-core/src/sensors.h:359-365 | the two start gestures never hold together, each mirrors the other, and a reading of exactly 100 is neither |
| WallSensors.Sensors.constructor | mazerunner-core/src/sensors.h:101 | sensors start disabled, with normal steering (the steering mode's initial value is at line 135) |
| WallSensors.Sensors.EnableSensors | mazerunner-core/src/sensors.h:217-219 | the sensors are enabled; the steering mode, the switch reading, every raw and normalised wall reading, the front sum and the wall flags are kept |
| WallSensors.Sensors.DisableSensors | mazerunner-core/src/sensors.h:221-223 | the sensors are disabled; the steering mode, the switch reading, every raw and normalised wall reading, the front sum and the wall flags are kept |
| WallSensors.Sensors.GetSwitches | mazerunner-core/src/sensors.h:166-178 | the switch reading decoded by the threshold table |
| WallSensors.Sensors.ButtonPressed | mazerunner-core/src/sensors.h:337-339 | pressed exactly when the switch reading is above 800 |
| WallSensors.Sensors.IsOccludedLeft | mazerunner-core/src/sensors.h:359-361 | the left gesture implies the left front reading exceeds the right |
| WallSensors.Sensors.IsOccludedRight | mazerunner-core/src/sensors.h:363-365 | the right gesture implies the right front reading exceeds the left |
| WallSensors.Sensors.ReadWallSensors | mazerunner-core/src/sensors.h:246-265 | ADC results 0..3 are clamped at 0 in place, 4 and 5 are kept, the raws are read from their channels and normalised; the front sum and the wall flags are kept |
| WallSensors.Sensors.DetectWalls | mazerunner-core/src/sensors.h:267-271 | each side wall is present exactly above its threshold; the front sum is the two front readings and the front wall is present exactly above its threshold |
| WallSensors.Sensors.UpdateWallSensors | mazerunner-core/src/sensors.h:241-297 | disabled: error 0 and nothing changes; enabled: clamp, raws, normalised values, flags, and the error chosen by mode from the flags, forced to 0 when the front sum exceeds 100 |

## Left out

- Motion, motors, encoders, ADC drivers, interrupts, delays and all serial output are hardware or logging. Each manoeuvre is taken to have happened, and each sensor reading is an input.
- The floating-point normalisation of the raw readings (a scale factor then a truncating cast) is a parameter of `UpdateWallSensors`. The robot's thresholds and nominal side reading are a `Calibration` parameter.
- `read_float`, the command-line tokeniser and the `Args` structure are not modelled: they belong to the command line, not to the scanner's arithmetic.
- FloodMaze uses an unbounded worklist where the source uses a 64-slot queue with no overflow check. An overflowing queue would overwrite queued cells; this model does not capture that. The queue itself is modelled on its own as `RingQueue.Queue`.
- RingQueue.Queue.Add: requires a queue that is not full. The source does not check; adding to a full queue overwrites the oldest slot and the count exceeds the capacity.
- RingQueue.Queue.Head: requires a queue that is not empty. The source does not check; taking from an empty queue reads a stale slot and the count goes negative.
- RingQueue.Queue.constructor: requires a capacity of at least 1. A zero capacity makes the wrap arithmetic meaningless.
- BoundedList.List.Add: states the append to the contents only while the 8-bit fill count is below 255. At 255 the count wraps to 0, which only a list of more than 255 slots can reach.
- `src/list.h` ignores its constructor's `maxSize` argument and always allocates `num_items` slots. The model takes the slot count as the constructor's argument.
- LineParsing.ReadInteger: states no value for a run of 256 digits or more unless the count wraps to exactly 0. In the source the `uint8_t` counter wraps after 255 digits, so from digit 257 on up to eight more digits are accumulated again, and the `int32_t` accumulator can then overflow, which is undefined behaviour in C. The model's accumulator is unbounded there.
- LineParsing.ReadInteger: requires the value passed in to fit 16 bits, as the `int&` it models does on the ATmega328.
- Within eight digits the 32-bit accumulator of `read_integer` cannot overflow. The int overflow of the steering error is not modelled.
- IsWall and IsExit for directions 8 and above read no bit (the C shift reaches beyond the byte). Directions from 16 up would be undefined behaviour in C, whose `int` is 16 bits wide on the ATmega328.
- MazeMouse.Mouse.Replan: the claims about the new heading need an old heading of 0..3. With a heading outside 0..3 the source's masked change is still applied, and the model states only the reversal at the target.
- The wall follower's unused call to `direction_to_smallest` and its printed heading change are left out. They affect only the log.
- `init` also switches steering off, and the older mouse code also sets `p_mouse_state`. Steering mode belongs to the sensors object and the state variable is unused here, so both are left out.
- The older mouse code's `search_maze` would stop with a panic when a leg returns non-zero. Both legs always return 0, so that branch is dead, and `SearchOutAndBack` shows the result 0.
- The older mouse code uses a global wall table and `initialise_maze(emptyMaze)`. It is modelled with the same `Maze` class as the newer code.
- `wait_for_user_start`, `wait_for_button_press`, `wait_for_button_release` and the other busy-wait loops are left out: they poll hardware with delays.
- The `src/switches.h` switch input's latched reading is uninitialised until its first `update`. The model starts it at 0.

## Findings

| source | as written | input that shows it | evidently intended | confidence | as-written member | corrected member |
|---|---|---|---|---|---|---|
| mazerunner-core/list.h:39-46 | `contains` scans all `num_items` slots of the buffer, including slots past the fill count | add `x` to an empty 8-slot list, then `clear()`: `size()` is 0 but `contains(x)` is true | scan only the `size()` filled slots, so that `contains` is membership in the list | medium, not executed | BoundedList.StaleItemFound | BoundedList.List.ContainsAdded |
