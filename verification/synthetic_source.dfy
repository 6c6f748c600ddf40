/**
 The synthetic temperature source of the test build: a sawtooth cursor that
 steps upward and wraps back to its minimum, whose samples are pulled onto or
 just past the band limits whenever they fall outside the band.
 */
module SyntheticSource {
  import opened Optional
  import ColourMap

  /** An unsigned 8-bit value. */
  type U8 = x: int | 0 <= x < 0x100

  /** Rust's `x as u8` for a float: truncation toward zero, saturating. */
  function AsU8(x: real): (r: U8)
    ensures x < 1.0 ==> r == 0
    ensures 0.0 <= x < 256.0 ==> r as real <= x < r as real + 1.0
    ensures x >= 255.0 ==> r == 255
  {
    if x < 0.0 then 0 else if x >= 255.0 then 255 else x.Floor
  }

  /** Machine epsilon of a 32-bit float, 2^-23. */
  const F32Epsilon: real := 1.0 / 8388608.0
  /** How far past a band limit an odd out-of-band sample is placed. */
  const EdgeOffset: real := 1000.0 * F32Epsilon
  /** How far the sawtooth extends past the band on either side. */
  const OverLimit: real := 10.0

  /** The generator's state; the settling delay and its timer are not part
      of the model. */
  datatype TestTemp = TestTemp(
    cursor: real,
    wrapMin: real,
    wrapMax: real,
    lowLimit: real,
    highLimit: real,
    step: real)

  /** The generator the test build starts with. */
  const TestConfig: TestTemp := TestTemp(
    -60.0,
    -ColourMap.ColdLimit - OverLimit,
    ColourMap.HotLimit + OverLimit,
    -ColourMap.ColdLimit,
    ColourMap.HotLimit,
    0.1)

  /** The range the cursor stays in once it has started inside it. */
  predicate CursorInRange(t: TestTemp) {
    t.wrapMin <= t.cursor < t.wrapMax + t.step
  }

  /** The cursor after one read: it moves up by one step while it is below
      the maximum, and otherwise wraps back to the minimum. */
  function NextCursor(t: TestTemp): (c: real)
    ensures c == t.wrapMin || c == t.cursor + t.step
    ensures CursorInRange(t) && t.step > 0.0 ==> (c > t.cursor <==> t.cursor < t.wrapMax)
    ensures CursorInRange(t) && t.step > 0.0 && t.cursor >= t.wrapMax ==> c == t.wrapMin
  {
    if t.cursor >= t.wrapMax then t.wrapMin else t.cursor + t.step
  }

  /** Stepping keeps the cursor in its range. */
  lemma NextCursorInRange(t: TestTemp)
    requires t.step > 0.0 && CursorInRange(t)
    ensures CursorInRange(t.(cursor := NextCursor(t)))
  {
  }

  /** The sample returned for the pre-advance cursor value `v`: in-band
      values pass unchanged, and out-of-band ones are put on the limit or
      just past it, depending on the parity of their truncated magnitude. */
  function EdgeSample(t: TestTemp, v: real): (s: real)
    ensures t.lowLimit <= t.highLimit ==> t.lowLimit - EdgeOffset <= s <= t.highLimit + EdgeOffset
  {
    var below := if v < t.lowLimit then
      (if AsU8(-v) % 2 == 0 then t.lowLimit else t.lowLimit - EdgeOffset)
    else v;
    if below > t.highLimit then
      (if AsU8(below) % 2 == 0 then t.highLimit else t.highLimit + EdgeOffset)
    else below
  }

  /** The three cases of the edge rule on a non-empty band. */
  lemma EdgeSampleCases(t: TestTemp, v: real)
    requires t.lowLimit <= t.highLimit
    ensures t.lowLimit <= v <= t.highLimit ==> EdgeSample(t, v) == v
    ensures v < t.lowLimit && AsU8(-v) % 2 == 0 ==> EdgeSample(t, v) == t.lowLimit
    ensures v < t.lowLimit && AsU8(-v) % 2 == 1 ==> EdgeSample(t, v) == t.lowLimit - EdgeOffset
    ensures v > t.highLimit && AsU8(v) % 2 == 0 ==> EdgeSample(t, v) == t.highLimit
    ensures v > t.highLimit && AsU8(v) % 2 == 1 ==> EdgeSample(t, v) == t.highLimit + EdgeOffset
  {
  }

  /** An out-of-band sample stays out of the band exactly when it is not
      placed on the limit itself. */
  lemma EdgeSampleStaysOutside(t: TestTemp, v: real)
    requires t.lowLimit <= t.highLimit
    requires v < t.lowLimit || v > t.highLimit
    ensures EdgeSample(t, v) < t.lowLimit || EdgeSample(t, v) > t.highLimit
         <==> EdgeSample(t, v) != t.lowLimit && EdgeSample(t, v) != t.highLimit
  {
  }

  datatype ReadOutcome = ReadOutcome(next: TestTemp, reading: Option<real>)

  /** `read` of the test build: sample the cursor, advance it, and return
      the edge-adjusted sample. It always yields a reading. */
  function Read(t: TestTemp): (o: ReadOutcome)
    ensures o.reading.Some?
    ensures o.next.(cursor := t.cursor) == t
    ensures o.next.cursor == NextCursor(t)
    ensures o.reading.value == EdgeSample(t, t.cursor)
    ensures t.lowLimit <= t.cursor <= t.highLimit ==> o.reading.value == t.cursor
    ensures t.step > 0.0 && CursorInRange(t) ==> CursorInRange(o.next)
  {
    var next := t.(cursor := NextCursor(t));
    assert t.step > 0.0 && CursorInRange(t) ==> CursorInRange(next) by {
      if t.step > 0.0 && CursorInRange(t) { NextCursorInRange(t); }
    }
    ReadOutcome(next, Some(EdgeSample(t, t.cursor)))
  }

  /** The samples of `n` consecutive reads and the generator after them. */
  datatype Trace = Trace(samples: seq<real>, last: TestTemp)

  function ReadMany(t: TestTemp, n: nat): (tr: Trace)
    ensures |tr.samples| == n
    ensures tr.last.(cursor := t.cursor) == t
    ensures t.step > 0.0 && CursorInRange(t) ==> CursorInRange(tr.last)
    ensures t.lowLimit <= t.highLimit ==>
      forall i :: 0 <= i < n ==> t.lowLimit - EdgeOffset <= tr.samples[i] <= t.highLimit + EdgeOffset
  {
    if n == 0 then Trace([], t)
    else
      var before := ReadMany(t, n - 1);
      var o := Read(before.last);
      Trace(before.samples + [o.reading.value], o.next)
  }

  /** Sample `i` of a run of reads is the edge sample of the cursor the
      generator held after the first `i` reads. */
  lemma {:induction false} ReadManySample(t: TestTemp, n: nat, i: nat)
    requires i < n
    ensures ReadMany(t, n).samples[i] == EdgeSample(t, ReadMany(t, i).last.cursor)
    decreases n
  {
    var before := ReadMany(t, n - 1);
    var sample := Read(before.last).reading.value;
    assert ReadMany(t, n).samples == before.samples + [sample];
    if i < n - 1 {
      ReadManySample(t, n - 1, i);
      assert (before.samples + [sample])[i] == before.samples[i];
    } else {
      // Reads change only the cursor, so the last generator has t's limits.
      assert before.last.lowLimit == t.lowLimit && before.last.highLimit == t.highLimit;
      assert sample == EdgeSample(t, before.last.cursor);
    }
  }

  /** Starting from the test configuration, the cursor climbs by 0.1 per
      read until it first reaches the maximum of 70. */
  lemma {:induction false} TestRamp(n: nat)
    requires n <= 1300
    ensures ReadMany(TestConfig, n).last.cursor == -60.0 + n as real * 0.1
  {
    if n > 0 {
      TestRamp(n - 1);
      var before := ReadMany(TestConfig, n - 1);
      assert before.last.wrapMax == 70.0 && before.last.step == 0.1;
      assert before.last.cursor < 70.0;
    }
  }

  /** Along the test configuration's ramp, sample `i` is the edge sample of
      the cursor -60 + 0.1 i. */
  lemma TestSample(n: nat, i: nat)
    requires i < n && i <= 1300
    ensures ReadMany(TestConfig, n).samples[i] == EdgeSample(TestConfig, -60.0 + i as real * 0.1)
  {
    ReadManySample(TestConfig, n, i);
    TestRamp(i);
  }

  /** The test build's first two samples are the cold limit itself and then
      a value just below it, so both the mapped and the alarm side of the
      cold edge are exercised. */
  lemma TestStartsAtColdEdge()
    ensures ReadMany(TestConfig, 2).samples[0] == -ColourMap.ColdLimit
    ensures ReadMany(TestConfig, 2).samples[1] == -ColourMap.ColdLimit - EdgeOffset
  {
    TestRamp(1);
    assert AsU8(59.9) == 59;
  }

  /** Sample 1205 of the test build is exactly the hot limit: the cursor is
      at 60.5, which truncates to the even 60. */
  lemma TestReachesHotLimit()
    ensures ReadMany(TestConfig, 1206).samples[1205] == ColourMap.HotLimit
  {
    TestRamp(1205);
    assert AsU8(60.5) == 60;
  }
}
