/** .NET DateTime as far as the forecast service looks at it: a kind tag and a
    tick count (100 ns units). Calendar fields are derived from the ticks the
    same way DateTime derives them, so only the tick value and the kind matter. */
module Time {

  /** DateTimeKind: only Utc passes the service's validators. */
  datatype DateTimeKind = Unspecified | Utc | Local

  /** A DateTime value. Comparisons between DateTimes look at `ticks` only,
      as in .NET, where the kind is ignored by `<`, `>=` and subtraction. */
  datatype DateTime = DateTime(kind: DateTimeKind, ticks: nat)

  const TicksPerMillisecond: nat := 10_000
  const TicksPerSecond: nat := 10_000_000
  const TicksPerMinute: nat := 600_000_000
  const TicksPerHour: nat := 36_000_000_000
  const TicksPerDay: nat := 864_000_000_000

  /** DateTime.Minute */
  function Minute(d: DateTime): nat {
    (d.ticks / TicksPerMinute) % 60
  }

  /** DateTime.Second */
  function Second(d: DateTime): nat {
    (d.ticks / TicksPerSecond) % 60
  }

  /** DateTime.Millisecond */
  function Millisecond(d: DateTime): nat {
    (d.ticks / TicksPerMillisecond) % 1000
  }

  /** The validators' alignment test: minute, second and millisecond are zero.
      Ticks below one millisecond are not looked at. */
  predicate IsHourAligned(d: DateTime) {
    Minute(d) == 0 && Second(d) == 0 && Millisecond(d) == 0
  }

  /** The alignment test in closed form: an instant passes exactly when it lies
      less than one millisecond after a whole hour. */
  lemma HourAlignedIffWithinMillisecond(d: DateTime)
    ensures IsHourAligned(d) <==> d.ticks % TicksPerHour < TicksPerMillisecond
  {
    var t := d.ticks;
    MinuteIsZeroIff(t);
    SecondIsZeroIff(t);
    MillisecondIsZeroIff(t);
    HourRemainderModMinute(t);
    MinuteRemainderModSecond(t);
  }

  lemma MinuteIsZeroIff(t: nat)
    ensures (t / 600_000_000) % 60 == 0 <==> t % 36_000_000_000 < 600_000_000
  {
  }

  lemma SecondIsZeroIff(t: nat)
    ensures (t / 10_000_000) % 60 == 0 <==> t % 600_000_000 < 10_000_000
  {
  }

  lemma MillisecondIsZeroIff(t: nat)
    ensures (t / 10_000) % 1000 == 0 <==> t % 10_000_000 < 10_000
  {
  }

  lemma HourRemainderModMinute(t: nat)
    ensures (t % 36_000_000_000) % 600_000_000 == t % 600_000_000
  {
  }

  lemma MinuteRemainderModSecond(t: nat)
    ensures (t % 600_000_000) % 10_000_000 == t % 10_000_000
  {
  }

  /** Ticks below one millisecond escape the alignment test: 10:00:00.0009999
      passes, 10:00:00.001 does not. */
  lemma SubMillisecondTicksPass()
    ensures IsHourAligned(DateTime(Utc, 10 * TicksPerHour + TicksPerMillisecond - 1))
    ensures !IsHourAligned(DateTime(Utc, 10 * TicksPerHour + TicksPerMillisecond))
  {
    HourAlignedIffWithinMillisecond(DateTime(Utc, 10 * TicksPerHour + TicksPerMillisecond - 1));
    HourAlignedIffWithinMillisecond(DateTime(Utc, 10 * TicksPerHour + TicksPerMillisecond));
  }
}
