/*
 * The integer part of the wall sensors: clamping the raw ADC results,
 * deciding which walls are present and choosing the cross-track steering
 * error; plus the switch decoder and start-gesture tests that read the same
 * sensor block. The robot-specific calibration (thresholds, nominal side
 * reading) is a parameter, and so is the conversion of a raw reading to its
 * normalised value, which the robot does in floating point.
 */
module WallSensors {
  import opened AnalogueSwitches

  // The steering modes.
  const STEER_NORMAL: int := 0
  const STEER_LEFT_WALL: int := 1
  const STEER_RIGHT_WALL: int := 2
  const STEERING_OFF: int := 3

  // Which ADC result each wall sensor is wired to.
  const RFS_CHANNEL: int := 0
  const RSS_CHANNEL: int := 1
  const LSS_CHANNEL: int := 2
  const LFS_CHANNEL: int := 3

  /** The four wall sensors: front and side, right and left. */
  datatype Sensor = RightFront | RightSide | LeftSide | LeftFront

  /** The robot's wall-detection thresholds and its side reading when
      centred in a cell. */
  datatype Calibration = Calibration(leftThreshold: int, rightThreshold: int, frontThreshold: int, sideNominal: int)

  /** Neither side sensor may be trusted close to a wall ahead. */
  const FRONT_CUTOFF: int := 100

  /**
   * The cross-track error chosen from the wall flags and the two side
   * errors. Normal steering uses both sides when both walls are there
   * (left error minus right error), either one alone doubled, and nothing
   * without side walls; the single-wall modes always use their side; any
   * other mode gives 0. Close to a wall ahead the error is 0 whatever the mode.
   */
  function SteeringError(mode: int, leftWall: bool, rightWall: bool, leftError: int, rightError: int, frontSum: int): int
  {
    if frontSum > FRONT_CUTOFF then 0
    else if mode == STEER_NORMAL then
      (if leftWall && rightWall then leftError - rightError
       else if leftWall then 2 * leftError
       else if rightWall then -2 * rightError
       else 0)
    else if mode == STEER_LEFT_WALL then 2 * leftError
    else if mode == STEER_RIGHT_WALL then -2 * rightError
    else 0
  }

  /** The mode that does on the right what `mode` does on the left. */
  function MirrorMode(mode: int): int
  {
    if mode == STEER_LEFT_WALL then STEER_RIGHT_WALL
    else if mode == STEER_RIGHT_WALL then STEER_LEFT_WALL
    else mode
  }

  /** Steering is symmetric: swapping the left and right readings (and the
      left- and right-wall modes) negates the error. */
  lemma SteeringMirror(mode: int, leftWall: bool, rightWall: bool, leftError: int, rightError: int, frontSum: int)
    ensures SteeringError(MirrorMode(mode), rightWall, leftWall, rightError, leftError, frontSum)
      == -SteeringError(mode, leftWall, rightWall, leftError, rightError, frontSum)
  {
  }

  /** A robot centred between two walls, or one seeing no side wall under
      normal steering, is not steered. */
  lemma CentredIsNotSteered(mode: int, leftWall: bool, rightWall: bool, frontSum: int)
    requires mode == STEER_NORMAL || (leftWall && rightWall) || mode == STEERING_OFF
    ensures SteeringError(mode, leftWall, rightWall, 0, 0, frontSum) == 0
    ensures mode == STEER_NORMAL && !leftWall && !rightWall ==>
      forall le: int, re: int :: SteeringError(mode, leftWall, rightWall, le, re, frontSum) == 0
  {
  }

  /** The steering error moves against the offset: a larger left side
      reading (robot nearer the left wall) never makes the error larger. */
  lemma SteeringAgainstLeftOffset(mode: int, leftWall: bool, rightWall: bool, rightError: int, frontSum: int, le1: int, le2: int)
    requires le1 <= le2
    ensures mode == STEER_NORMAL || mode == STEER_LEFT_WALL ==>
      SteeringError(mode, leftWall, rightWall, le1, rightError, frontSum) <= SteeringError(mode, leftWall, rightWall, le2, rightError, frontSum)
  {
  }

  function Max(a: int, b: int): int
  {
    if a < b then b else a
  }

  /** The start gesture: a hand over the left front sensor only. */
  predicate OccludedLeft(lfsRaw: int, rfsRaw: int)
  {
    lfsRaw > 100 && rfsRaw < 100
  }

  /** The start gesture: a hand over the right front sensor only. */
  predicate OccludedRight(lfsRaw: int, rfsRaw: int)
  {
    lfsRaw < 100 && rfsRaw > 100
  }

  /** The two start gestures exclude each other, and a reading of exactly
      100 on either sensor is neither. */
  lemma OcclusionExclusive(lfsRaw: int, rfsRaw: int)
    ensures !(OccludedLeft(lfsRaw, rfsRaw) && OccludedRight(lfsRaw, rfsRaw))
    ensures OccludedLeft(lfsRaw, rfsRaw) <==> OccludedRight(rfsRaw, lfsRaw)
    ensures lfsRaw == 100 || rfsRaw == 100 ==> !OccludedLeft(lfsRaw, rfsRaw) && !OccludedRight(lfsRaw, rfsRaw)
  {
  }

  class Sensors {
    var enabled: bool
    const adc: array<int>
    var switchesAdcReading: int
    var steeringMode: int

    var lfsRaw: int
    var lssRaw: int
    var rssRaw: int
    var rfsRaw: int

    var lfs: int
    var lss: int
    var rss: int
    var rfs: int

    var frontSum: int
    var lssHasWall: bool
    var rssHasWall: bool
    var frontHasWall: bool

    predicate Valid()
    {
      adc.Length == 6
    }

    constructor ()
      ensures Valid() && fresh(adc)
      ensures !enabled && steeringMode == STEER_NORMAL
    {
      adc := new int[6];
      enabled := false;
      steeringMode := STEER_NORMAL;
    }

    /** The switch reading and the raw and normalised wall readings are
        as they were. */
    twostate predicate ReadingsKept()
      reads this
    {
      && switchesAdcReading == old(switchesAdcReading)
      && lfsRaw == old(lfsRaw) && lssRaw == old(lssRaw) && rssRaw == old(rssRaw) && rfsRaw == old(rfsRaw)
      && lfs == old(lfs) && lss == old(lss) && rss == old(rss) && rfs == old(rfs)
    }

    /** The front sum and the three wall flags are as they were. */
    twostate predicate DetectionKept()
      reads this
    {
      && frontSum == old(frontSum)
      && lssHasWall == old(lssHasWall) && rssHasWall == old(rssHasWall) && frontHasWall == old(frontHasWall)
    }

    /** Only the enable flag changes. */
    method EnableSensors()
      modifies this
      ensures enabled
      ensures steeringMode == old(steeringMode)
      ensures ReadingsKept() && DetectionKept()
    {
      enabled := true;
    }

    /** Only the enable flag changes. */
    method DisableSensors()
      modifies this
      ensures !enabled
      ensures steeringMode == old(steeringMode)
      ensures ReadingsKept() && DetectionKept()
    {
      enabled := false;
    }

    /** The switch setting (or 16 for the button, -1 for an error). */
    method GetSwitches() returns (r: int)
      ensures r == SwitchReading(switchesAdcReading)
    {
      r := DecodeSwitches(switchesAdcReading);
    }

    method ButtonPressed() returns (pressed: bool)
      ensures pressed <==> switchesAdcReading > BUTTON_LEVEL
    {
      var r := GetSwitches();
      ReadingClasses(switchesAdcReading);
      pressed := r == BUTTON;
    }

    function IsOccludedLeft(): (r: bool)
      reads this
      ensures r ==> lfsRaw > rfsRaw
    {
      OccludedLeft(lfsRaw, rfsRaw)
    }

    function IsOccludedRight(): (r: bool)
      reads this
      ensures r ==> rfsRaw > lfsRaw
    {
      OccludedRight(lfsRaw, rfsRaw)
    }

    /** Clamp the four wall readings at 0 in place, keep them as the raw
        values and normalise them. */
    method ReadWallSensors(normalise: (Sensor, int) -> int)
      requires Valid()
      modifies this, adc
      ensures forall i | 0 <= i < 4 :: adc[i] == Max(0, old(adc[i]))
      ensures adc[4] == old(adc[4]) && adc[5] == old(adc[5])
      ensures rfsRaw == adc[RFS_CHANNEL] && rssRaw == adc[RSS_CHANNEL]
      ensures lssRaw == adc[LSS_CHANNEL] && lfsRaw == adc[LFS_CHANNEL]
      ensures rfs == normalise(RightFront, rfsRaw) && rss == normalise(RightSide, rssRaw)
      ensures lss == normalise(LeftSide, lssRaw) && lfs == normalise(LeftFront, lfsRaw)
      ensures enabled == old(enabled) && steeringMode == old(steeringMode) && switchesAdcReading == old(switchesAdcReading)
      ensures DetectionKept()
    {
      adc[0] := Max(0, adc[0]);
      adc[1] := Max(0, adc[1]);
      adc[2] := Max(0, adc[2]);
      adc[3] := Max(0, adc[3]);

      rfsRaw := adc[RFS_CHANNEL];
      rssRaw := adc[RSS_CHANNEL];
      lssRaw := adc[LSS_CHANNEL];
      lfsRaw := adc[LFS_CHANNEL];

      rfs := normalise(RightFront, rfsRaw);
      rss := normalise(RightSide, rssRaw);
      lss := normalise(LeftSide, lssRaw);
      lfs := normalise(LeftFront, lfsRaw);
    }

    /** Decide which walls are present from the normalised readings. */
    method DetectWalls(cal: Calibration)
      modifies this
      ensures lssHasWall <==> lss > cal.leftThreshold
      ensures rssHasWall <==> rss > cal.rightThreshold
      ensures frontSum == lfs + rfs
      ensures frontHasWall <==> frontSum > cal.frontThreshold
      ensures lfs == old(lfs) && lss == old(lss) && rss == old(rss) && rfs == old(rfs)
      ensures lfsRaw == old(lfsRaw) && lssRaw == old(lssRaw) && rssRaw == old(rssRaw) && rfsRaw == old(rfsRaw)
      ensures enabled == old(enabled) && steeringMode == old(steeringMode) && switchesAdcReading == old(switchesAdcReading)
    {
      lssHasWall := lss > cal.leftThreshold;
      rssHasWall := rss > cal.rightThreshold;
      frontSum := lfs + rfs;
      frontHasWall := frontSum > cal.frontThreshold;
    }

    /**
     * One update of the wall sensors. With the sensors disabled nothing
     * changes and the error is 0. Otherwise the four wall readings are
     * clamped at 0 in place, kept as the raw values, normalised, compared
     * with the thresholds, and the steering error is chosen.
     */
    method UpdateWallSensors(cal: Calibration, normalise: (Sensor, int) -> int) returns (error: int)
      requires Valid()
      modifies this, adc
      ensures !old(enabled) ==> error == 0 && unchanged(this) && unchanged(adc)
      ensures old(enabled) ==>
        && (forall i | 0 <= i < 4 :: adc[i] == Max(0, old(adc[i])))
        && adc[4] == old(adc[4]) && adc[5] == old(adc[5])
        && rfsRaw == adc[RFS_CHANNEL] && rssRaw == adc[RSS_CHANNEL]
        && lssRaw == adc[LSS_CHANNEL] && lfsRaw == adc[LFS_CHANNEL]
        && rfs == normalise(RightFront, rfsRaw) && rss == normalise(RightSide, rssRaw)
        && lss == normalise(LeftSide, lssRaw) && lfs == normalise(LeftFront, lfsRaw)
        && (lssHasWall <==> lss > cal.leftThreshold)
        && (rssHasWall <==> rss > cal.rightThreshold)
        && frontSum == lfs + rfs
        && (frontHasWall <==> frontSum > cal.frontThreshold)
        && error == SteeringError(steeringMode, lssHasWall, rssHasWall, cal.sideNominal - lss, cal.sideNominal - rss, frontSum)
      ensures enabled == old(enabled) && steeringMode == old(steeringMode) && switchesAdcReading == old(switchesAdcReading)
    {
      if !enabled {
        return 0;
      }
      ReadWallSensors(normalise);
      DetectWalls(cal);

      var err := 0;
      var rightError := cal.sideNominal - rss;
      var leftError := cal.sideNominal - lss;
      if steeringMode == STEER_NORMAL {
        if lssHasWall && rssHasWall {
          err := leftError - rightError;
        } else if lssHasWall {
          err := 2 * leftError;
        } else if rssHasWall {
          err := -2 * rightError;
        }
      } else if steeringMode == STEER_LEFT_WALL {
        err := 2 * leftError;
      } else if steeringMode == STEER_RIGHT_WALL {
        err := -2 * rightError;
      }

      if frontSum > FRONT_CUTOFF {
        err := 0;
      }
      error := err;
    }
  }
}
