/**
  * The arithmetic of Measure_Distance (nnn.c:96-126): the two Timer1 bytes read after the
  * echo falls are combined into a 16-bit count, and the count is converted to centimetres.
  *
  * The trigger pulse and the two unbounded busy-waits on ECHO are not modelled: the timer
  * bytes are the input. The source multiplies by the floating-point constant 0.0343 and
  * halves; the model uses the exact rational 343 / 20000 and truncates, as the assignment
  * to an `unsigned int` does.
  */
module Sensor {
  import opened Types

  /** 0.0343 cm per microsecond, halved for the round trip: 343 / 20000. */
  const CmPerTickNumerator := 343
  const CmPerTickDenominator := 20000

  /** The largest count Timer1 can hold. */
  const MaxCount := 65535

  /**
    * `(TMR1H << 8) | TMR1L` (nnn.c:120): the 16-bit Timer1 count. The shift leaves the low
    * eight bits zero, so the `|` adds the low byte; each byte is recoverable from the count.
    */
  function PulseCount(hi: Byte, lo: Byte): (count: nat)
    ensures count <= MaxCount
    ensures count / 256 == hi && count % 256 == lo
  {
    hi * 256 + lo
  }

  /** Every count Timer1 can hold is read back from exactly one pair of bytes. */
  lemma PulseCountOnto(count: nat)
    requires count <= MaxCount
    ensures PulseCount(count / 256, count % 256) == count
  {
  }

  /**
    * `(pulse_time * 0.0343) / 2` truncated to an `unsigned int` (nnn.c:123), with the
    * constant taken as the exact rational: the largest whole number of centimetres whose
    * round trip fits in the count.
    */
  function DistanceCm(count: nat): (d: nat)
    ensures d * CmPerTickDenominator <= count * CmPerTickNumerator
    ensures count * CmPerTickNumerator < (d + 1) * CmPerTickDenominator
    ensures count <= MaxCount ==> d <= 1123
  {
    count * CmPerTickNumerator / CmPerTickDenominator
  }

  /** A longer echo never gives a shorter distance. */
  lemma DistanceMonotone(a: nat, b: nat)
    requires a <= b
    ensures DistanceCm(a) <= DistanceCm(b)
  {
    var da, db := DistanceCm(a), DistanceCm(b);
    assert da * CmPerTickDenominator < (db + 1) * CmPerTickDenominator;
  }

  /** The bound 1123 cm is reached: it is the distance of the longest count. */
  lemma LongestDistance()
    ensures DistanceCm(MaxCount) == 1123
  {
  }

  /**
    * The controller's test `distance > 25` (nnn.c:146) in terms of the raw count:
    * it holds exactly from 1517 ticks up.
    */
  lemma FarIffCount(count: nat)
    ensures DistanceCm(count) > 25 <==> count >= 1517
  {
    if count >= 1517 {
      DistanceMonotone(1517, count);
    } else {
      DistanceMonotone(count, 1516);
    }
  }

  /** Measure_Distance (nnn.c:96-126) from the Timer1 bytes it reads. */
  function MeasureDistance(hi: Byte, lo: Byte): (d: nat)
    ensures d <= 1123
    ensures d * CmPerTickDenominator <= PulseCount(hi, lo) * CmPerTickNumerator < (d + 1) * CmPerTickDenominator
  {
    DistanceCm(PulseCount(hi, lo))
  }
}
