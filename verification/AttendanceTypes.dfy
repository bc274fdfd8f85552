/** The values the attendance rules work on. Instants are milliseconds, local dates are day numbers. */
module AttendanceTypes {
  import opened Wrappers

  datatype Pairing = SEQUENTIAL | DEVICE_TYPE

  datatype OvertimeBasis = AFTER_SHIFT_END | EXCESS_WORKED_TIME

  datatype Policy = Policy(
    duplicatePunchWindowSeconds: nat,
    lateToleranceMinutes: nat,
    earlyLeaveToleranceMinutes: nat,
    overtimeEnabled: bool,
    overtimeThresholdMinutes: nat,
    overtimeBasis: OvertimeBasis,
    countEarlyArrivalAsOvertime: bool,
    punchPairing: Pairing,
    autoDeductUnpunchedBreak: bool,
    minBreakMinutes: nat,
    outOfScheduleMarginMinutes: nat,
    punchWindowBeforeShiftMinutes: nat,
    punchWindowAfterShiftMinutes: nat
  )

  const DEFAULT_POLICY := Policy(60, 5, 0, true, 15, AFTER_SHIFT_END, false, SEQUENTIAL, true, 0, 180, 240, 360)

  datatype DayType = WORKDAY | REST_DAY | HOLIDAY

  /** A shift materialized on a date. */
  datatype ResolvedShift = ResolvedShift(
    shiftId: string,
    flexible: bool,
    start: int,
    end: int,
    breakStart: Option<int>,
    breakEnd: Option<int>,
    lateToleranceMinutes: nat,
    earlyLeaveToleranceMinutes: nat,
    overtimeThresholdMinutes: nat
  )

  /** From `from` up to, not including, `to`. */
  datatype Window = Window(from: int, to: int)

  datatype WorkDayContext = WorkDayContext(
    workDate: int,
    dayType: DayType,
    shift: Option<ResolvedShift>,
    hasSchedule: bool,
    window: Window
  )

  datatype PunchType = CHECK_IN | CHECK_OUT | BREAK_OUT | BREAK_IN | UNKNOWN

  datatype Punch = Punch(id: string, at: int, kind: PunchType)

  function Min(a: int, b: int): int {
    if a < b then a else b
  }

  function Max(a: int, b: int): int {
    if a < b then b else a
  }
}
