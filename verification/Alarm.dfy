/** Temperature alarms (TemperatureDevice.poll_alarm): a bound that the temperature has passed is moved beyond it. */
module Alarm {
  import opened Text

  /** int(x): truncation toward zero. */
  function Truncated(x: real): int {
    if x >= 0.0 then x.Floor else -(-x).Floor
  }

  /** The whole part: at most as far from zero, on the same side, and less than one away. */
  lemma TruncatedMeaning(x: real)
    ensures x >= 0.0 ==> 0.0 <= Truncated(x) as real <= x < Truncated(x) as real + 1.0
    ensures x < 0.0 ==> Truncated(x) as real - 1.0 < x <= Truncated(x) as real <= 0.0
  {
  }

  /** The bounds an alarm was raised for. */
  datatype Reasons = Reasons(temp: real, high: Option<real>, low: Option<real>)

  class Thermometer {
    var latest: real
    var high: real
    var low: real
    var alarm: Option<real>

    constructor (latest: real, high: real, low: real)
      ensures this.latest == latest && this.high == high && this.low == low && alarm == None
    {
      this.latest, this.high, this.low, alarm := latest, high, low, None;
    }

    /** Afterwards the temperature is within the bounds; a bound changes only if the temperature was beyond it, and
        then to a whole number on the other side. */
    method PollAlarm() returns (reasons: Reasons)
      modifies this`high, this`low, this`alarm
      ensures low <= latest <= high && alarm == Some(latest)
      ensures high == if latest > old(high) then NewHigh(latest) else old(high)
      ensures low == if latest < old(low) then NewLow(latest) else old(low)
      ensures high != old(high) ==> old(high) < latest < high
      ensures low != old(low) ==> low < latest < old(low)
      ensures reasons == Reasons(latest, if latest > old(high) then Some(old(high)) else None,
                                 if latest < old(low) then Some(old(low)) else None)
    {
      var t := latest;
      alarm := Some(t);
      reasons := Reasons(t, None, None);
      var h := high;
      NewBoundsBeyond(t);
      if t > h {
        high := Truncated(t + 2.0) as real;
        reasons := reasons.(high := Some(h));
      }
      var l := low;
      if t < l {
        low := Truncated(t - 1.0) as real;
        reasons := reasons.(low := Some(l));
      }
    }
  }

  function NewHigh(t: real): real {
    Truncated(t + 2.0) as real
  }

  function NewLow(t: real): real {
    Truncated(t - 1.0) as real
  }

  /** Truncation toward zero costs less than the margin, on either side of zero: the new upper bound is more than 0
      and at most 3 above, more than 1 for temperatures from -2 up; the new lower bound is more than 0 and at most 2
      below, at least 1 for temperatures from 1 up. */
  lemma NewBoundsBeyond(t: real)
    ensures t < NewHigh(t) < t + 3.0 && (t >= -2.0 ==> t + 1.0 < NewHigh(t) <= t + 2.0)
    ensures t - 2.0 < NewLow(t) < t && (t >= 1.0 ==> NewLow(t) <= t - 1.0)
    ensures if t >= -2.0 then NewHigh(t) <= t + 2.0 < NewHigh(t) + 1.0 else NewHigh(t) - 1.0 < t + 2.0 <= NewHigh(t)
    ensures if t >= 1.0 then NewLow(t) <= t - 1.0 < NewLow(t) + 1.0 else NewLow(t) - 1.0 < t - 1.0 <= NewLow(t)
  {
  }

  /** A second alarm at the same temperature changes nothing. */
  method PollTwice(d: Thermometer) returns (first: Reasons, second: Reasons)
    modifies d`high, d`low, d`alarm
    ensures d.low <= d.latest <= d.high
    ensures second == Reasons(d.latest, None, None)
    ensures d.high == if d.latest > old(d.high) then NewHigh(d.latest) else old(d.high)
    ensures d.low == if d.latest < old(d.low) then NewLow(d.latest) else old(d.low)
  {
    first := d.PollAlarm();
    second := d.PollAlarm();
  }
}
