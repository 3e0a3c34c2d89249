/** The countdown's arithmetic, components/Countdown.tsx: how the
    millisecond difference to the wedding day is shown as days, hours,
    minutes and seconds. The clock and the local-midnight adjustment are
    outside the model; the difference is a parameter. Milliseconds per
    day, hour, minute and second are written out as 86400000, 3600000,
    60000 and 1000, the values of the source's `1000 * 60 * 60 * 24` and
    its shorter products. */
module Countdown {
  /** The `timeLeft` state. */
  datatype TimeLeft = TimeLeft(days: nat, hours: nat, minutes: nat, seconds: nat) {
    /** Every field below the next unit. */
    predicate InRange() {
      hours < 24 && minutes < 60 && seconds < 60
    }

    /** The milliseconds the display stands for. */
    function Milliseconds(): nat {
      days * 86400000 + hours * 3600000 + minutes * 60000 + seconds * 1000
    }
  }

  const ZERO := TimeLeft(0, 0, 0, 0)

  /** `calculateTimeLeft` for `difference = targetTime - nowTime`. For a
      positive difference JavaScript's `%` and `Math.floor(x / y)` agree
      with Dafny's `%` and `/`. */
  function CalculateTimeLeft(difference: int): (t: TimeLeft)
    ensures t.InRange()
    ensures difference <= 0 ==> t == ZERO
    ensures difference > 0 ==> t.days == difference / 86400000
    ensures difference > 0 ==> t.Milliseconds() <= difference < t.Milliseconds() + 1000
  {
    if difference > 0 then
      var t := TimeLeft(difference / 86400000,
                        (difference % 86400000) / 3600000,
                        (difference % 3600000) / 60000,
                        (difference % 60000) / 1000);
      Reconstruction(difference);
      t
    else ZERO
  }

  /** The remainders the source takes are nested: each one is the previous
      remainder's remainder, so the four fields add back up to the
      difference less its last partial second. */
  lemma Reconstruction(x: int)
    requires x > 0
    ensures (x / 86400000) * 86400000 + ((x % 86400000) / 3600000) * 3600000
      + ((x % 3600000) / 60000) * 60000 + ((x % 60000) / 1000) * 1000 == x - x % 1000
  {
    var r1 := x % 86400000;
    var r2 := r1 % 3600000;
    var r3 := r2 % 60000;
    assert x == 3600000 * (24 * (x / 86400000) + r1 / 3600000) + r2;
    RemainderOf(x, 3600000, 24 * (x / 86400000) + r1 / 3600000, r2);
    assert x == 60000 * (60 * (x / 3600000) + r2 / 60000) + r3;
    RemainderOf(x, 60000, 60 * (x / 3600000) + r2 / 60000, r3);
    assert x == 1000 * (60 * (x / 60000) + r3 / 1000) + r3 % 1000;
    RemainderOf(x, 1000, 60 * (x / 60000) + r3 / 1000, r3 % 1000);
  }

  /** Division is determined by quotient and remainder. */
  lemma RemainderOf(x: int, d: int, q: int, r: int)
    requires d > 0 && 0 <= r < d && x == d * q + r
    ensures x / d == q && x % d == r
  {
    var q' := x / d;
    var r' := x % d;
    assert d * q + r == d * q' + r';
    if q' > q {
      assert d * q' >= d * (q + 1) by { MultiplyMonotone(d, q + 1, q'); }
    } else if q' < q {
      assert d * q >= d * (q' + 1) by { MultiplyMonotone(d, q' + 1, q); }
    }
  }

  lemma MultiplyMonotone(d: int, a: int, b: int)
    requires d > 0 && a <= b
    ensures d * a <= d * b
  {
    assert d * b - d * a == d * (b - a);
  }

  /** The display is the only in-range one within a second below the
      difference: any other reading of the same difference is that one. */
  lemma DisplayIsUnique(difference: int, other: TimeLeft)
    requires difference > 0
    requires other.InRange()
    requires other.Milliseconds() <= difference < other.Milliseconds() + 1000
    ensures other == CalculateTimeLeft(difference)
  {
    var x := difference;
    var s := other.seconds * 1000 + x - other.Milliseconds();
    RemainderOf(x, 86400000, other.days, other.hours * 3600000 + other.minutes * 60000 + s);
    RemainderOf(x, 3600000, other.days * 24 + other.hours, other.minutes * 60000 + s);
    RemainderOf(x, 60000, other.days * 1440 + other.hours * 60 + other.minutes, s);
    RemainderOf(x % 86400000, 3600000, other.hours, other.minutes * 60000 + s);
    RemainderOf(x % 3600000, 60000, other.minutes, s);
    RemainderOf(x % 60000, 1000, other.seconds, x - other.Milliseconds());
  }

  /** The display never grows as the day approaches. */
  lemma CountsDown(earlier: int, later: int)
    requires later <= earlier
    ensures CalculateTimeLeft(later).Milliseconds() <= CalculateTimeLeft(earlier).Milliseconds()
  {
    if later > 0 {
      Reconstruction(later);
      Reconstruction(earlier);
      assert later / 1000 <= earlier / 1000;
    }
  }
}
