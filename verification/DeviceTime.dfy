/**
 Wall-clock readings and instants. A timezone is its offset function: `offset(t)` is added to an
 instant to give the local time a clock shows then. All values are milliseconds; a terminal's
 reading has whole seconds, and so has every instant computed here.
 */
module DeviceTime {
  type Zone = int -> int

  function LocalTime(offset: Zone, instant: int): int {
    instant + offset(instant)
  }

  /** Two passes: the offset where the reading would be in UTC, then the one at that guess. */
  function LocalTimeToInstant(offset: Zone, reading: int): int {
    var first := offset(reading);
    var guess := reading - first;
    var second := offset(guess);
    if second == first then guess else reading - second
  }

  /**
   Around the reading the offset is `before` until the instant `change` and `after` from it on
   (`before == after` when it never changes), and `reach` bounds both.
   */
  ghost predicate OneChange(offset: Zone, reading: int, reach: int, change: int, before: int, after: int) {
    && -reach <= before <= reach && -reach <= after <= reach
    && forall t :: reading - reach <= t <= reading + reach ==> offset(t) == if t < change then before else after
  }

  /** The reading appears on the clock at some instant; offsets never exceed `reach`. */
  ghost predicate Exists(offset: Zone, reading: int, reach: int) {
    exists t :: reading - reach <= t <= reading + reach && LocalTime(offset, t) == reading
  }

  /** Within reach of the reading the offset is one of two, however often they alternate. */
  ghost predicate TwoOffsets(offset: Zone, reading: int, reach: int, a: int, b: int) {
    && -reach <= a <= reach && -reach <= b <= reach
    && forall t :: reading - reach <= t <= reading + reach ==> offset(t) == a || offset(t) == b
  }

  /** As around one change. */
  lemma OneChangeIsTwo(offset: Zone, reading: int, reach: int, change: int, before: int, after: int)
    requires OneChange(offset, reading, reach, change, before, after)
    ensures TwoOffsets(offset, reading, reach, before, after)
  {
  }

  /**
   Any offset function at all: a reading a clock shows is missed exactly when the offset it was
   shown under and the two read on the way are three, and the last of them does not lead back.
   */
  lemma MissNeedsThree(offset: Zone, reading: int, instant: int)
    requires LocalTime(offset, instant) == reading
    ensures var shown, first := offset(instant), offset(reading);
            var second := offset(reading - first);
            LocalTime(offset, LocalTimeToInstant(offset, reading)) != reading
            <==> shown != first && first != second && shown != second && offset(reading - second) != second
  {
    assert instant == reading - offset(instant);
  }

  /** With two offsets around it, a reading is converted exactly if and only if a clock shows it. */
  lemma ReadingRestored(offset: Zone, reading: int, reach: int, a: int, b: int)
    requires TwoOffsets(offset, reading, reach, a, b)
    ensures LocalTime(offset, LocalTimeToInstant(offset, reading)) == reading <==> Exists(offset, reading, reach)
  {
    var i := LocalTimeToInstant(offset, reading);
    assert offset(reading) == a || offset(reading) == b;
    assert offset(reading - a) == a || offset(reading - a) == b;
    assert offset(reading - b) == a || offset(reading - b) == b;
    assert reading - reach <= i <= reading + reach;
    if Exists(offset, reading, reach) {
      var t :| reading - reach <= t <= reading + reach && LocalTime(offset, t) == reading;
      MissNeedsThree(offset, reading, t);
    }
  }

  /** Instant to local time and back always gives the same local time. */
  lemma LocalTimeStable(offset: Zone, instant: int, reach: int, a: int, b: int)
    requires TwoOffsets(offset, LocalTime(offset, instant), reach, a, b)
    requires -reach <= offset(instant) <= reach
    ensures LocalTime(offset, LocalTimeToInstant(offset, LocalTime(offset, instant))) == LocalTime(offset, instant)
  {
    var reading := LocalTime(offset, instant);
    assert LocalTime(offset, instant) == reading && reading - reach <= instant <= reading + reach;
    assert Exists(offset, reading, reach);
    ReadingRestored(offset, reading, reach, a, b);
  }

  /**
   A reading a clock shows twice (set back at `change`): the first time it showed it when the
   reading, taken as UTC, is before the change, and the second time otherwise.
   */
  lemma AmbiguousReading(offset: Zone, reading: int, reach: int, change: int, before: int, after: int)
    requires OneChange(offset, reading, reach, change, before, after)
    requires after < before && change + after <= reading < change + before
    ensures LocalTime(offset, reading - before) == reading == LocalTime(offset, reading - after)
    ensures LocalTimeToInstant(offset, reading) == if reading < change then reading - before else reading - after
  {
    assert offset(reading - before) == before && offset(reading - after) == after;
    assert offset(reading) == if reading < change then before else after;
  }

  /**
   A reading a clock skips (set forward at `change`) never exists. It is taken as the time that
   long before the skip ended or after it began, on the side of the change where UTC puts it.
   */
  lemma SkippedReading(offset: Zone, reading: int, reach: int, change: int, before: int, after: int)
    requires OneChange(offset, reading, reach, change, before, after)
    requires before < after && change + before <= reading < change + after
    ensures !Exists(offset, reading, reach)
    ensures LocalTime(offset, LocalTimeToInstant(offset, reading))
         == if reading < change then reading - (after - before) else reading + (after - before)
  {
    assert offset(reading - before) == after && offset(reading - after) == before;
    assert offset(reading) == if reading < change then before else after;
  }

  /** Any offset function at all: the conversion is exact when the second offset read still applies where it leads. */
  lemma ConvertedExactly(offset: Zone, reading: int)
    ensures var second := offset(reading - offset(reading));
            && LocalTimeToInstant(offset, reading) == reading - second
            && (LocalTime(offset, LocalTimeToInstant(offset, reading)) == reading
                <==> offset(reading - second) == second)
  {
  }

  const HOUR := 3_600_000

  /** Whole-hour offsets that change twice within the span of the offsets themselves. */
  function TwiceChanged(t: int): int {
    if t < -3 * HOUR then 4 * HOUR else if t < -1 * HOUR then 5 * HOUR else 2 * HOUR
  }

  /**
   Two offsets are needed: across three, a reading the clock did show can be converted wrongly. No
   zone there is moves its clocks like this within hours.
   */
  lemma TwoChangesCanMiss()
    ensures LocalTime(TwiceChanged, -4 * HOUR) == 0
    ensures LocalTime(TwiceChanged, LocalTimeToInstant(TwiceChanged, 0)) == -1 * HOUR
  {
  }
}
