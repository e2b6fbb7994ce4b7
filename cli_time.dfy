/** The millisecond decomposition of lib/cli_time.c. */
module CliTime {
  import opened CliConfig

  /** `CLI_Time_t` */
  datatype Time = Time(hour: nat, minute: nat, second: nat, msec: nat)

  /** `cli_time_get_time_ms`: milliseconds split into hours, minutes,
      seconds and milliseconds; the hours are computed from the whole
      seconds. */
  function TimeOfMs(msec: nat): (t: Time)
    requires msec < U32_RANGE
    ensures t.msec < 1000 && t.second < 60 && t.minute < 60
    ensures t.hour < 1194
  {
    var s := msec / 1000;
    Time(s / 3600, (s / 60) % 60, s % 60, msec % 1000)
  }

  /** Nothing is lost: the four fields add up to the input again. */
  lemma TimeOfMsAddsUp(msec: nat)
    requires msec < U32_RANGE
    ensures var t := TimeOfMs(msec);
            t.hour * 3600000 + t.minute * 60000 + t.second * 1000 + t.msec == msec
  {
    var s := msec / 1000;
    assert msec == s * 1000 + msec % 1000;
    var m := s / 60;
    assert s == m * 60 + s % 60;
    assert m == s / 3600 * 60 + m % 60 by {
      assert s / 3600 == m / 60;
    }
  }

  /** The hours are the whole number of hours in the input. */
  lemma HourIsWholeHours(msec: nat)
    requires msec < U32_RANGE
    ensures TimeOfMs(msec).hour == msec / 3600000
  {
  }

  /** `def_time_ms`: a zero-initialised static the program never writes. */
  const DEF_TIME_MS: nat := 0

  /** `cli_time_get_plus_time_ms`: the decomposition of the input plus the
      correction, in 32-bit arithmetic. */
  function PlusTimeMs(msec: nat): (t: Time)
    requires msec < U32_RANGE
    ensures t.msec < 1000 && t.second < 60 && t.minute < 60
    ensures t.hour * 3600000 + t.minute * 60000 + t.second * 1000 + t.msec == msec
  {
    TimeOfMsAddsUp(msec);
    TimeOfMs(U32(msec + DEF_TIME_MS))
  }

  /** As the correction is never set, the corrected time is the time. */
  lemma PlusTimeIsTime(msec: nat)
    requires msec < U32_RANGE
    ensures PlusTimeMs(msec) == TimeOfMs(msec)
  {
  }
}
