/*
 * The multifunction analogue input: four DIP switches and a push button
 * share one ADC channel through a resistor divider. A reading above 800
 * means the button is pressed; otherwise the switch setting 0..15 is the
 * first entry of the threshold table whose midpoint with the next entry
 * the reading exceeds; a reading at or below every midpoint is an error,
 * reported as -1.
 */
module AnalogueSwitches {

  const THRESHOLDS: seq<int> := [660, 647, 630, 614, 590, 570, 545, 522, 461, 429, 385, 343, 271, 212, 128, 44, 0]
  const BUTTON_LEVEL: int := 800
  const BUTTON: int := 16
  const NO_READING: int := -1

  /** The decision level between switch settings `i` and `i + 1`. All table
      entries are non-negative, so C's truncating division and Dafny's agree. */
  function Midpoint(i: int): int
    requires 0 <= i < 16
  {
    (THRESHOLDS[i] + THRESHOLDS[i + 1]) / 2
  }

  /** The first setting from `i` on whose midpoint `reading` exceeds, or
      NO_READING when there is none. */
  function FirstAbove(reading: int, i: int): int
    requires 0 <= i <= 16
    decreases 16 - i
  {
    if i == 16 then NO_READING
    else if reading > Midpoint(i) then i
    else FirstAbove(reading, i + 1)
  }

  /** What a switch reading decodes to: BUTTON, a setting 0..15, or NO_READING. */
  function SwitchReading(reading: int): int
  {
    if reading > BUTTON_LEVEL then BUTTON else FirstAbove(reading, 0)
  }

  /** Decode a switch reading by scanning the threshold table. */
  method DecodeSwitches(reading: int) returns (r: int)
    ensures r == SwitchReading(reading)
    ensures -1 <= r <= 16
  {
    if reading > BUTTON_LEVEL {
      return BUTTON;
    }
    for i := 0 to 16
      invariant FirstAbove(reading, i) == FirstAbove(reading, 0)
    {
      if reading > (THRESHOLDS[i] + THRESHOLDS[i + 1]) / 2 {
        return i;
      }
    }
    return NO_READING;
  }

  /** The midpoints strictly decrease, so the settings are bands of readings. */
  lemma MidpointsDecrease(i: int, j: int)
    requires 0 <= i < j < 16
    ensures Midpoint(j) < Midpoint(i)
  {
  }

  lemma {:induction false} FirstAboveBounds(reading: int, i: int)
    requires 0 <= i <= 16
    ensures FirstAbove(reading, i) == NO_READING || i <= FirstAbove(reading, i) < 16
    ensures FirstAbove(reading, i) != NO_READING ==> reading > Midpoint(FirstAbove(reading, i))
    ensures forall j | i <= j < 16 && (FirstAbove(reading, i) == NO_READING || j < FirstAbove(reading, i)) :: reading <= Midpoint(j)
    decreases 16 - i
  {
    if i < 16 && reading <= Midpoint(i) {
      FirstAboveBounds(reading, i + 1);
    }
  }

  /** Setting `s` is decoded exactly for the readings in its band: above its
      midpoint, at or below the previous one (or at most BUTTON_LEVEL for
      setting 0). */
  lemma SettingBand(reading: int, s: int)
    requires 0 <= s < 16
    ensures SwitchReading(reading) == s <==>
      reading <= BUTTON_LEVEL && reading > Midpoint(s) && (s == 0 || reading <= Midpoint(s - 1))
  {
    FirstAboveBounds(reading, 0);
    if reading <= BUTTON_LEVEL && reading > Midpoint(s) && (s == 0 || reading <= Midpoint(s - 1)) {
      forall j | 0 <= j < s ensures reading <= Midpoint(j) {
        if j < s - 1 {
          MidpointsDecrease(j, s - 1);
        }
      }
    }
  }

  /** The result is always one of -1, 0..15 or 16; 16 means exactly that the
      reading is above BUTTON_LEVEL, and -1 that it is at most 22, the
      midpoint of the last two table entries. */
  lemma ReadingClasses(reading: int)
    ensures -1 <= SwitchReading(reading) <= 16
    ensures SwitchReading(reading) == BUTTON <==> reading > BUTTON_LEVEL
    ensures SwitchReading(reading) == NO_READING <==> reading <= 22
  {
    FirstAboveBounds(reading, 0);
    assert Midpoint(15) == 22;
    if reading <= 22 {
      forall j | 0 <= j < 15 ensures reading <= Midpoint(j) {
        MidpointsDecrease(j, 15);
      }
      if FirstAbove(reading, 0) != NO_READING {
        assert false;
      }
    }
  }

  /** The switch input. The board-level version reads its channel's dark
      reading each time it is read; the later version reads the value latched
      by `UpdateFrom`. */
  class Switches {
    const channel: int
    var switchesAdc: int

    constructor (channel: int)
      ensures this.channel == channel && switchesAdc == 0
    {
      this.channel := channel;
      switchesAdc := 0;
    }

    /** Latch the channel's current reading out of the ADC results. */
    method UpdateFrom(adc: seq<int>)
      requires 0 <= channel < |adc|
      modifies this
      ensures switchesAdc == adc[channel]
    {
      switchesAdc := adc[channel];
    }

    /** Latch a fresh dark reading of the channel. */
    method Update(darkReading: int)
      modifies this
      ensures switchesAdc == darkReading
    {
      switchesAdc := darkReading;
    }

    /** Decode the latched reading. */
    method Read() returns (r: int)
      ensures r == SwitchReading(switchesAdc)
    {
      r := DecodeSwitches(switchesAdc);
    }

    /** Take a fresh dark reading, then decode it. */
    method ReadFresh(darkReading: int) returns (r: int)
      modifies this
      ensures switchesAdc == darkReading
      ensures r == SwitchReading(darkReading)
    {
      Update(darkReading);
      r := DecodeSwitches(switchesAdc);
    }

    /** The button is pressed exactly when the latched reading decodes to 16. */
    method ButtonPressed() returns (pressed: bool)
      ensures pressed <==> switchesAdc > BUTTON_LEVEL
    {
      var r := Read();
      ReadingClasses(switchesAdc);
      pressed := r == BUTTON;
    }

    /** Take a fresh dark reading; the button is pressed exactly when it
        decodes to 16. */
    method ButtonPressedFresh(darkReading: int) returns (pressed: bool)
      modifies this
      ensures switchesAdc == darkReading
      ensures pressed <==> darkReading > BUTTON_LEVEL
    {
      var r := ReadFresh(darkReading);
      ReadingClasses(darkReading);
      pressed := r == BUTTON;
    }
  }
}
