/**
 The PWM sink of the controller, reduced to what the control loop sees of it:
 three channels each holding an unsigned 16-bit duty, Rust's `as u16`
 float-to-integer cast that produces those duties, and the alarm rule that
 raises every lit channel to the full duty.
 */
module Pwm {

  /** An unsigned 16-bit duty value, as the PWM peripheral stores it. */
  type U16 = x: int | 0 <= x < 0x1_0000

  /** The duty that keeps a channel on for the whole period. */
  const AbsMaxDuty: U16 := 256

  /** Rust's `x as u16` for a float: truncation toward zero, saturating at
      both ends of the range (negative values give 0). */
  function AsU16(x: real): (r: U16)
    ensures x < 1.0 ==> r == 0
    ensures 0.0 <= x < 65536.0 ==> r as real <= x < r as real + 1.0
    ensures x >= 65535.0 ==> r == 65535
  {
    if x < 0.0 then 0 else if x >= 65535.0 then 65535 else x.Floor
  }

  /** The `as u16` cast never decreases when its argument grows. */
  lemma AsU16Monotone(x: real, y: real)
    requires x <= y
    ensures AsU16(x) <= AsU16(y)
  {
  }

  datatype Channel = Red | Green | Blue

  /** The order in which the alarm rule visits the channels. */
  const AllChannels: seq<Channel> := [Red, Green, Blue]

  /** The alarm rule's loop visits every channel; a helper for
      `SetMaxDutyOnAll`. */
  lemma EveryChannelVisited()
    ensures forall c: Channel :: c in AllChannels
  {
    forall c: Channel ensures c in AllChannels {
      match c
      case Red => assert AllChannels[0] == c;
      case Green => assert AllChannels[1] == c;
      case Blue => assert AllChannels[2] == c;
    }
  }

  /** The current duty of each of the three channels. */
  datatype Duties = Duties(red: U16, green: U16, blue: U16) {

    function Get(ch: Channel): U16 {
      match ch
      case Red => red
      case Green => green
      case Blue => blue
    }

    /** The duties with channel `ch` set to `v`, the others kept. */
    function With(ch: Channel, v: U16): (d: Duties)
      ensures d.Get(ch) == v
      ensures forall c :: c != ch ==> d.Get(c) == Get(c)
    {
      match ch
      case Red => this.(red := v)
      case Green => this.(green := v)
      case Blue => this.(blue := v)
    }

    /** Every channel holds a duty the peripheral accepts. */
    predicate Valid() {
      red <= AbsMaxDuty && green <= AbsMaxDuty && blue <= AbsMaxDuty
    }
  }

  /** `set_max_duty`: a lit channel goes to full duty, a dark one stays dark,
      and no other channel changes. */
  function SetMaxDuty(d: Duties, ch: Channel): (r: Duties)
    ensures d.Get(ch) != 0 ==> r.Get(ch) == AbsMaxDuty
    ensures d.Get(ch) == 0 ==> r.Get(ch) == 0
    ensures forall c :: c != ch ==> r.Get(c) == d.Get(c)
  {
    if d.Get(ch) != 0 then d.With(ch, AbsMaxDuty) else d
  }

  /** The alarm rule applied to each channel of `chs` in turn. */
  function SetMaxDutyOn(d: Duties, chs: seq<Channel>): (r: Duties)
    ensures forall c :: c in chs && d.Get(c) != 0 ==> r.Get(c) == AbsMaxDuty
    ensures forall c :: c !in chs || d.Get(c) == 0 ==> r.Get(c) == d.Get(c)
    decreases |chs|
  {
    if |chs| == 0 then d else SetMaxDutyOn(SetMaxDuty(d, chs[0]), chs[1..])
  }

  /** `set_max_duty_on_all`: every non-zero duty becomes full duty and every
      zero duty stays zero. */
  function SetMaxDutyOnAll(d: Duties): (r: Duties)
    ensures forall c :: d.Get(c) != 0 ==> r.Get(c) == AbsMaxDuty
    ensures forall c :: d.Get(c) == 0 ==> r.Get(c) == 0
  {
    EveryChannelVisited();
    SetMaxDutyOn(d, AllChannels)
  }

  /** Raising the lit channels a second time changes nothing. */
  lemma SetMaxDutyOnAllIdempotent(d: Duties)
    ensures SetMaxDutyOnAll(SetMaxDutyOnAll(d)) == SetMaxDutyOnAll(d)
  {
    var once := SetMaxDutyOnAll(d);
    var twice := SetMaxDutyOnAll(once);
    assert twice.Get(Red) == once.Get(Red);
    assert twice.Get(Green) == once.Get(Green);
    assert twice.Get(Blue) == once.Get(Blue);
  }

  /** The alarm rule keeps every duty within what the peripheral accepts,
      whatever the duties were before. */
  lemma SetMaxDutyOnAllValid(d: Duties)
    requires d.Valid()
    ensures SetMaxDutyOnAll(d).Valid()
    ensures forall c :: SetMaxDutyOnAll(d).Get(c) >= d.Get(c)
  {
    var r := SetMaxDutyOnAll(d);
    assert r.Get(Red) == r.red && r.Get(Green) == r.green && r.Get(Blue) == r.blue;
    assert d.Get(Red) == d.red && d.Get(Green) == d.green && d.Get(Blue) == d.blue;
  }
}
