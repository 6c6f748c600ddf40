/**
 One iteration of the control loop as a step from (reading, duties) to
 duties, and a run of the loop over a finite sequence of readings.
 */
module Controller {
  import opened Optional
  import opened Pwm
  import opened ColourMap
  import SyntheticSource

  /** The duties written for an in-band reading: red at most 128, blue at
      the full duty exactly from the pivot on, and green below the full duty
      except at the hot limit, where it reaches it. */
  function Mapped(val: real): (d: Duties)
    ensures InBand(val) ==> d.Valid()
    ensures InBand(val) ==> d.red <= 128
    ensures InBand(val) ==> (d.blue == AbsMaxDuty <==> val >= Pivot)
    ensures InBand(val) ==> (d.green == AbsMaxDuty <==> val == HotLimit)
    ensures InBand(val) ==> d.red as real <= RedAmount(val) < d.red as real + 1.0
    ensures InBand(val) ==> d.green as real <= GreenAmount(val) < d.green as real + 1.0
    ensures InBand(val) ==> d.blue as real <= BlueAmount(val) < d.blue as real + 1.0
  {
    Duties(RedDuty(val), GreenDutyAsWritten(val), BlueDuty(val))
  }

  /** One pass of the loop body. No reading leaves the duties alone; an
      out-of-band reading only runs the alarm rule; an in-band reading
      overwrites all three channels with the mapped duties. */
  function Step(reading: Option<real>, d: Duties): (r: Duties)
    ensures reading.None? ==> r == d
    ensures reading.Some? && InAlarm(reading.value) ==>
      forall c :: r.Get(c) == (if d.Get(c) == 0 then 0 else AbsMaxDuty)
    ensures reading.Some? && !InAlarm(reading.value) ==>
      r.red < AbsMaxDuty && r.blue <= AbsMaxDuty && r.green <= AbsMaxDuty
    ensures reading.Some? && -ColdLimit <= reading.value < HotLimit ==> r.green < AbsMaxDuty
    ensures reading.Some? && !InAlarm(reading.value) ==> r == Mapped(reading.value)
    ensures d.Valid() ==> r.Valid()
  {
    match reading
    case None => d
    case Some(val) =>
      if InAlarm(val) then
        SetMaxDutyOnAll(d)
      else
        Mapped(val)
  }

  /** The loop body with the green duty held below the full duty, as the
      bound asserted on the green duty requires. It agrees with `Step` on
      every input except an in-band reading of exactly the hot limit. */
  function CorrectedStep(reading: Option<real>, d: Duties): (r: Duties)
    ensures reading.Some? && !InAlarm(reading.value) ==>
      r.red < AbsMaxDuty && r.green < AbsMaxDuty && r.blue <= AbsMaxDuty
    ensures reading != Some(HotLimit) ==> r == Step(reading, d)
    ensures reading == Some(HotLimit) ==> r == Step(reading, d).(green := AbsMaxDuty - 1)
    ensures d.Valid() ==> r.Valid()
  {
    match reading
    case Some(val) =>
      if InAlarm(val) then SetMaxDutyOnAll(d)
      else Duties(RedDuty(val), GreenDuty(val), BlueDuty(val))
    case None => d
  }

  /** The loop run over a finite sequence of readings. */
  function Run(readings: seq<Option<real>>, d: Duties): (r: Duties)
    ensures d.Valid() ==> r.Valid()
    decreases |readings|
  {
    if |readings| == 0 then d else Run(readings[1..], Step(readings[0], d))
  }

  /** A reading that brings no colour: none at all, or one in alarm. */
  predicate Dark(reading: Option<real>) {
    reading.None? || InAlarm(reading.value)
  }

  /** While no in-band reading arrives, a dark channel is never lit and a
      lit channel is never dimmed. */
  lemma {:induction false} RunWithoutBandReadings(readings: seq<Option<real>>, d: Duties, c: Channel)
    requires forall i :: 0 <= i < |readings| ==> Dark(readings[i])
    ensures d.Get(c) == 0 ==> Run(readings, d).Get(c) == 0
    ensures d.Get(c) != 0 ==> Run(readings, d).Get(c) != 0
    decreases |readings|
  {
    if |readings| > 0 {
      RunWithoutBandReadings(readings[1..], Step(readings[0], d), c);
    }
  }

  /** Once an alarm reading has arrived and no in-band reading followed it,
      every channel is either dark or at the full duty. */
  lemma {:induction false} RunAfterAlarm(readings: seq<Option<real>>, d: Duties, c: Channel)
    requires |readings| > 0 && readings[0].Some? && InAlarm(readings[0].value)
    requires forall i :: 0 <= i < |readings| ==> Dark(readings[i])
    ensures Run(readings, d).Get(c) == 0 || Run(readings, d).Get(c) == AbsMaxDuty
    ensures Run(readings, d).Get(c) == 0 <==> d.Get(c) == 0
  {
    var after := Step(readings[0], d);
    RunWithoutBandReadings(readings[1..], after, c);
    RunAlarmStable(readings[1..], after, c);
  }

  /** A channel that is dark or at the full duty stays so under readings
      that bring no colour. */
  lemma {:induction false} RunAlarmStable(readings: seq<Option<real>>, d: Duties, c: Channel)
    requires forall i :: 0 <= i < |readings| ==> Dark(readings[i])
    requires d.Get(c) == 0 || d.Get(c) == AbsMaxDuty
    ensures Run(readings, d).Get(c) == d.Get(c)
    decreases |readings|
  {
    if |readings| > 0 {
      RunAlarmStable(readings[1..], Step(readings[0], d), c);
    }
  }

  /** A second alarm reading in a row changes nothing. */
  lemma AlarmStepIdempotent(val: real, d: Duties)
    requires InAlarm(val)
    ensures Step(Some(val), Step(Some(val), d)) == Step(Some(val), d)
  {
    SetMaxDutyOnAllIdempotent(d);
  }

  /** An in-band reading overwrites every channel, so the duties no longer
      depend on what was there before. */
  lemma BandStepForgetsHistory(val: real, d1: Duties, d2: Duties)
    requires InBand(val)
    ensures Step(Some(val), d1) == Step(Some(val), d2)
  {
  }

  /** The hot limit 60 is an in-band reading that the test build's generator
      produces. Over exact reals its green duty is 256, so the test build's
      bound on the green duty fails before any duty is written; the loop body
      as the run build compiles it writes (0, 256, 256), and the corrected
      step writes green 255. */
  lemma HotLimitStep(d: Duties)
    ensures SyntheticSource.ReadMany(SyntheticSource.TestConfig, 1206).samples[1205] == HotLimit
    ensures Step(Some(HotLimit), d) == Duties(0, AbsMaxDuty, AbsMaxDuty)
    ensures CorrectedStep(Some(HotLimit), d) == Duties(0, AbsMaxDuty - 1, AbsMaxDuty)
  {
    SyntheticSource.TestReachesHotLimit();
    GreenDutyAsWrittenAtHotLimit();
  }
}
