/** Metro departures at a fixed frequency (engine/metro/schedule.rs). */
module Schedules {
  import opened IntMath

  /** `Schedule`: seconds between departures, counted from the start of the simulation. */
  datatype Schedule = Schedule(fixedFrequency: nat)

  /** `Schedule::fixed_frequency`: the source asserts the frequency is positive. */
  function FixedFrequency(fixedFrequency: nat): (s: Schedule)
    requires fixedFrequency > 0
    ensures s.fixedFrequency == fixedFrequency
  {
    Schedule(fixedFrequency)
  }

  /**
   * `next_departure`: the current time plus what remains of the current period.
   * The result is a departure strictly after the current time.
   */
  function NextDeparture(s: Schedule, currentTime: nat): (r: nat)
    requires s.fixedFrequency > 0
    ensures r > currentTime && r % s.fixedFrequency == 0
    ensures 1 <= r - currentTime <= s.fixedFrequency
  {
    var f := s.fixedFrequency;
    var remaining := currentTime % f;
    var r := currentTime + (f - remaining);
    assert r == (currentTime / f + 1) * f;
    DivModUnique(r, f, currentTime / f + 1, 0);
    r
  }

  /** The next departure is the earliest: no departure lies after the current time and before it. */
  lemma NextDepartureIsEarliest(s: Schedule, currentTime: nat, d: nat)
    requires s.fixedFrequency > 0
    requires d > currentTime && d % s.fixedFrequency == 0
    ensures NextDeparture(s, currentTime) <= d
  {
    var f := s.fixedFrequency;
    var q := currentTime / f;
    assert NextDeparture(s, currentTime) == (q + 1) * f;
    assert d == (d / f) * f;
    if d / f > q {
      MulLe(q + 1, d / f, f);
    } else {
      MulLe(d / f, q, f);
      assert false;
    }
  }

  /** `expected_waiting_time`: half a period, rounded down. */
  function ExpectedWaitingTime(s: Schedule): (r: nat)
    ensures r * 2 <= s.fixedFrequency < r * 2 + 2
  {
    s.fixedFrequency / 2
  }

  /** The source's test `fixed_frequency_test`, for a departure every 60 seconds. */
  lemma FixedFrequencyExamples()
    ensures var s := FixedFrequency(60);
      && NextDeparture(s, 0) == 60 && NextDeparture(s, 1) == 60 && NextDeparture(s, 30) == 60
      && NextDeparture(s, 59) == 60 && NextDeparture(s, 60) == 120 && NextDeparture(s, 100) == 120
      && NextDeparture(s, 200) == 240
  {
  }
}
