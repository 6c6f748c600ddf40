# see_the_heat — a Dafny model of the temperature-to-colour control loop

The firmware samples an ambient temperature and drives three PWM channels
(red, green, blue) so that the colour encodes the temperature on a linear
scale over the band [-50, 60] degrees. A reading outside the band puts the
lights into the alarm state, in which every lit channel goes to the full duty
of 256. A test build replaces the sensor with a synthetic sawtooth generator
that also produces samples exactly on, and just past, the band limits.

This project models one iteration of that loop as pure step functions, over
exact real numbers instead of 32-bit floats:

- `Pwm` (pwm.dfy): 16-bit duties, Rust's saturating `as u16` cast, the
  three-channel duty triple standing in for the PWM peripheral,
  and the alarm rule `set_max_duty` / `set_max_duty_on_all`.
- `ColourMap` (colour_map.dfy): the band constants, the alarm test, the
  blue / green / red intensities and the duties cast from them, with their
  bounds and monotonicity.
- `SyntheticSource` (synthetic_source.dfy): the test build's `TempReader::read`
  as a function from generator state to (next state, reading), with the
  saturating `as u8` cast of its parity test.
- `Controller` (controller.dfy): one loop iteration from (reading, duties) to
  duties, and the loop folded over a finite sequence of readings.
- `Optional` (optional.dfy): the `Option` a temperature source returns.

## Model

| member | source | states |
|---|---|---|
| Pwm.AsU16 | src/main.rs:126-128 | the `as u16` cast of a non-negative amount below 65536 is its floor; amounts below 1 give 0 and large ones saturate at 65535 |
| Pwm.AsU16Monotone | src/main.rs:126-128 | the `as u16` cast never decreases as the amount grows |
| Pwm.SetMaxDuty | src/main.rs:139-143 | a channel with non-zero duty goes to 256, a channel at 0 stays at 0, and the other two channels are unchanged |
| Pwm.SetMaxDutyOn | src/main.rs:134-136 | applying the rule to each channel of a list raises exactly the lit channels of that list to 256 and leaves every other duty as it was |
| Pwm.SetMaxDutyOnAll | src/main.rs:133-137 | after the alarm rule every previously lit channel is at 256 and every dark channel is still at 0 |
| Pwm.SetMaxDutyOnAllIdempotent | src/main.rs:133-143 | applying the alarm rule twice gives the same duties as applying it once |
| Pwm.SetMaxDutyOnAllValid | src/main.rs:133-143 | the alarm rule keeps every duty within [0, 256] and never lowers a duty |
| ColourMap.InAlarm | src/main.rs:90 | the alarm test fires exactly for readings outside the closed band [-50, 60] |
| ColourMap.BandLimitsAreMapped | src/main.rs:90-93 | both limits -50 and 60 pass the alarm test and are mapped |
| ColourMap.BlueAmount | src/main.rs:95-99 | blue is exactly 256 from the pivot 5 on, and lies in [0, 256) for in-band readings below the pivot |
| ColourMap.BlueRising | src/main.rs:95-99 | blue is 0 at -50 and strictly increasing on [-50, 5) |
| ColourMap.GreenCorrector | src/main.rs:101-106 | the green corrector is at most 0.6, equals 0.6 up to 30 degrees, is non-negative exactly for readings up to 60, and is zero exactly at 60 |
| ColourMap.GreenGapAboveKnee | src/main.rs:100-109 | above 30 degrees, 256 minus the green product factors as (110 - t)(256/110 - 0.02 t) with t = val + 50 |
| ColourMap.GreenBelowFull | src/main.rs:100-109 | for every reading in [-50, 60) the green product (val + 50)(256/110 + corrector) lies in [0, 256) |
| ColourMap.GreenAmount | src/main.rs:100-109 | over exact reals green lies in [0, 256] on the closed band, below 256 on [-50, 60), and is exactly 256 at 60 |
| ColourMap.GreenAtHotLimit | src/main.rs:100-109 | at the reading 60 the corrector is 0 and the green intensity is exactly 256 |
| ColourMap.GreenRising | src/main.rs:100-109 | green is strictly increasing over the whole closed band, across the corrector's knee at 30 |
| ColourMap.GreenRisingBelowKnee | src/main.rs:100-108 | green is strictly increasing on [-50, 30], where its slope is the fixed 256/110 + 0.6 |
| ColourMap.GreenRisingAboveKnee | src/main.rs:101-108 | green is strictly increasing on [30, 60] even though its slope shrinks there |
| ColourMap.RedAmount | src/main.rs:111-117 | for an in-band reading red lies in [0, 128] |
| ColourMap.RedPeak | src/main.rs:111-117 | red is 0 at both band limits and 128 at the pivot |
| ColourMap.RedRising | src/main.rs:111-117 | red is strictly increasing on [-50, 5) and stays below its value at the pivot |
| ColourMap.RedFalling | src/main.rs:111-117 | red is strictly decreasing on [5, 60] |
| ColourMap.RedDuty | src/main.rs:121 | the red duty of an in-band reading is the floor of the red intensity and at most 128, so below 256 |
| ColourMap.BlueDuty | src/main.rs:122 | the blue duty of an in-band reading is the floor of the blue intensity, at most 256, below 256 before the pivot and exactly 256 from it on |
| ColourMap.GreenDutyAsWritten | src/main.rs:123 | the green duty cast as the loop does it is the floor of the green intensity, at most 256 on the closed band and below 256 for readings in [-50, 60) |
| ColourMap.GreenDutyRising | src/main.rs:100-128 | a warmer in-band reading never gets a smaller green duty |
| ColourMap.GreenDutyAsWrittenAtHotLimit | src/main.rs:123 | the reading 60 is in band and its green duty as written is 256, so the bound asserted for green fails there |
| ColourMap.GreenDuty | src/main.rs:123 | the corrected green duty is below 256 on the whole closed band and equals the as-written duty on [-50, 60); only the corrected step uses it |
| ColourMap.MappingExamples | src/main.rs:95-128 | over exact reals, all three duties are 0 at -50; at the pivot red is 128, green 161 and blue 256 |
| SyntheticSource.AsU8 | src/main.rs:202 | the `as u8` cast used for the parity test: floor on [0, 256), 0 below 1, 255 from 255 on |
| SyntheticSource.NextCursor | src/main.rs:199 | the next cursor is the minimum or one step on, and it rises exactly when the cursor is below the maximum |
| SyntheticSource.NextCursorInRange | src/main.rs:197-199 | with a positive step, the invariant min <= cursor < max + step is kept by each step |
| SyntheticSource.EdgeSample | src/main.rs:201-215 | on a non-empty band every returned sample lies within one edge offset of the band |
| SyntheticSource.EdgeSampleCases | src/main.rs:201-215 | in-band values pass unchanged; below the band the sample is the lower limit when the truncated magnitude is even and the limit minus the offset when odd; symmetrically above |
| SyntheticSource.EdgeSampleStaysOutside | src/main.rs:201-215 | an out-of-band value stays out of band exactly when it is not placed on a limit |
| SyntheticSource.Read | src/main.rs:186-222 | a read always yields a reading, moves the cursor to its next position and changes nothing else, returns the edge sample of the old cursor (an in-band cursor unchanged) and keeps the cursor invariant |
| SyntheticSource.ReadMany | src/main.rs:186-222 | n reads yield n samples, all within one edge offset of the band, change only the cursor and keep the cursor invariant |
| SyntheticSource.ReadManySample | src/main.rs:186-222 | sample i of n reads is the edge sample of the cursor the generator held after the first i reads |
| SyntheticSource.TestRamp | src/main.rs:42-51 | from the test configuration the cursor after n <= 1300 reads is -60 + 0.1 n |
| SyntheticSource.TestSample | src/main.rs:42-51 | from the test configuration, sample i <= 1300 is the edge sample of the cursor -60 + 0.1 i |
| SyntheticSource.TestStartsAtColdEdge | src/main.rs:201-207 | the test build's first sample is exactly -50 and its second is just below -50 |
| SyntheticSource.TestReachesHotLimit | src/main.rs:209-215 | sample 1205 of the test build is exactly 60 |
| Controller.Mapped | src/main.rs:95-128 | the duties written for an in-band reading are the floors of the red, green and blue intensities; they are valid, red at most 128, blue at 256 exactly from the pivot on, and green at 256 exactly at the hot limit 60 |
| Controller.Step | src/main.rs:87-129 | the loop body as the run build compiles it: no reading keeps the duties; an alarm reading only raises lit channels to 256; an in-band reading writes red below 256, blue and green at most 256, and green below 256 on [-50, 60), and it writes exactly the mapped duties of that reading; valid duties stay valid |
| Controller.CorrectedStep | src/main.rs:123-128 | the loop body with the asserted green bound restored: red and green below 256 on the whole band, equal to the loop as written except for the reading 60, where green is 255 instead of 256 |
| Controller.Run | src/main.rs:86-130 | any finite run of the loop keeps valid duties valid |
| Controller.RunWithoutBandReadings | src/main.rs:89-93 | while no in-band reading arrives a dark channel stays dark and a lit channel stays lit |
| Controller.RunAfterAlarm | src/main.rs:89-93 | after an alarm reading and only dark readings since, each channel is 0 or 256, and 0 exactly when it was 0 before the alarm |
| Controller.RunAlarmStable | src/main.rs:133-143 | a channel at 0 or 256 keeps its duty under readings that are missing or in alarm |
| Controller.AlarmStepIdempotent | src/main.rs:90-93 | a second identical alarm reading leaves the duties unchanged |
| Controller.BandStepForgetsHistory | src/main.rs:126-128 | after an in-band reading the duties do not depend on the duties before it |
| Controller.HotLimitStep | src/main.rs:90-128 | the test generator emits the in-band reading 60. Over exact reals its green duty is 256, so the test build's assertion at line 123 fails before line 128 writes anything. The loop body as the run build compiles it (`Step`) writes (0, 256, 256), and the corrected step writes green 255 |

## Findings

| source | as written | input that shows it | evidently intended | confidence | as-written member | corrected member |
|---|---|---|---|---|---|---|
| src/main.rs:123 | the green duty is asserted below 256 for every reading that passes the band test at line 90, which admits 60 | over exact reals, val = 60 (which the test generator emits as sample 1205): green = 110 * (256/110 + 0) = 256, so the duty is 256 | the green duty stays below 256 on the whole band, as the assertion says | not executed; holds in exact arithmetic only. Evaluated by hand in single precision, line 108 gives 255.99998 (duty 255) at 60.0, so the firmware's assertion holds there. It gives 256.00003 or 256.0 (duty 256) instead for 14 of the single-precision readings in [59.99978, 60) | ColourMap.GreenDutyAsWrittenAtHotLimit | ColourMap.GreenDuty |

`Controller.Step` models the loop body as the run build compiles it, without
the test build's assertions, and uses the as-written green duty. The corrected green duty holds that duty one step below the full duty.
It agrees with the source everywhere except the single reading 60, and only
`Controller.CorrectedStep` uses it.

## Left out

- Peripheral acquisition, pin assignment and PWM counter, prescaler and period configuration: hardware plumbing. The PWM sink is the `Duties` triple.
- The startup call of `set_max_duty_on_all` before the loop: it acts on the peripheral's initial duties, which are not modelled.
- The physical `Temp` sensor reader of the run build: a foreign call with a fixed-point conversion that is not visible. Its only effect on the loop is an optional reading, which `Controller.Step` takes as a parameter.
- RTT printing and the settling delay of the synthetic source: I/O and timing only. The delay and its timer are not fields of `SyntheticSource.TestTemp`.
- Panic handlers, feature-flag selection and the build commands.
- Controller.Step: the test-feature assertions at src/main.rs:105 and 121-123 are stated as lemmas, not modelled as a panic that stops the loop; Step is the loop body as the run build compiles it.
- The infinite loop: `Controller.Step` is one iteration and `Controller.Run` a finite prefix of the loop.
- IEEE-754 f32 arithmetic: amounts are exact reals, so rounding of 256/110, 0.6, 0.02 and of the accumulated 0.1 step is not modelled. Rounding decides the asserted green bound near the hot limit. Over reals the green duty is 256 only at 60. In single precision it is 255 at 60.0 and 256 for 14 of the single-precision readings in [59.99978, 60). The edge offset is 1000 times the exact f32 epsilon 2^-23, and only its positivity matters. NaN readings are not modelled.
- ColourMap.GreenDutyAsWritten: its bound "below 256 on [-50, 60)" holds over exact reals only, because single-precision rounding gives duty 256 for 14 of the single-precision readings in [59.99978, 60). `Controller.Step` and `Controller.Mapped` inherit this.
- The source only asserts that the green corrector is non-negative and does not clamp it. For in-band readings it is never negative, which `ColourMap.GreenCorrector` proves, so the model does not clamp either.
