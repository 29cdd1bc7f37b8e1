/** The countdown arithmetic of `updateCountdown`: the millisecond difference
    between the deadline and now, split into whole days, hours, minutes and seconds. */
module Countdown {
  import opened History

  const MS_PER_SECOND := 1000
  const MS_PER_MINUTE := 60000
  const MS_PER_HOUR := 3600000

  /** The four displayed values; `passed` is the "Deadline has passed!" branch. */
  datatype TimeLeft = TimeLeft(days: int, hours: int, minutes: int, seconds: int, passed: bool)

  lemma ModOfMultiple(a: int, m: int, k: int)
    requires m > 0 && k > 0
    ensures (a % (k * m)) % m == a % m
  {
    var q := a / (k * m);
    var r := a % (k * m);
    assert a == (q * k) * m + r;
    DivModUnique(a, m, q * k + r / m, r % m);
  }

  /** Division with remainder is unique: q and r with 0 <= r < m are a / m and a % m. */
  lemma DivModUnique(a: int, m: int, q: int, r: int)
    requires m > 0 && 0 <= r < m && a == q * m + r
    ensures a / m == q && a % m == r
  {
    var q', r' := a / m, a % m;
    assert a == q' * m + r';
    var e := q - q';
    assert e * m == r' - r by {
      assert e * m == q * m - q' * m;
    }
    if e > 0 {
      MulGrows(e, m);
    } else if e < 0 {
      MulGrows(-e, m);
    }
  }

  lemma MulGrows(e: int, m: int)
    requires e >= 1 && m > 0
    ensures e * m >= m
  {
    assert e * m == (e - 1) * m + m;
    assert (e - 1) * m >= 0;
  }

  /** What `updateCountdown` shows at instant `now` (milliseconds) for `deadline`. */
  function Countdown(deadline: int, now: int): (t: TimeLeft)
    ensures deadline - now <= 0 ==> t == TimeLeft(0, 0, 0, 0, true)
    ensures deadline - now > 0 ==>
              !t.passed && t.days >= 0 && 0 <= t.hours < 24 && 0 <= t.minutes < 60 && 0 <= t.seconds < 60 &&
              t.days * MS_PER_DAY + t.hours * MS_PER_HOUR + t.minutes * MS_PER_MINUTE + t.seconds * MS_PER_SECOND
                + (deadline - now) % MS_PER_SECOND == deadline - now
  {
    var diff := deadline - now;
    if diff <= 0 then TimeLeft(0, 0, 0, 0, true)
    else
      ModOfMultiple(diff, MS_PER_HOUR, 24);
      ModOfMultiple(diff, MS_PER_MINUTE, 60);
      ModOfMultiple(diff, MS_PER_SECOND, 60);
      TimeLeft(diff / MS_PER_DAY, (diff % MS_PER_DAY) / MS_PER_HOUR,
               (diff % MS_PER_HOUR) / MS_PER_MINUTE, (diff % MS_PER_MINUTE) / MS_PER_SECOND, false)
  }

  /** The floors are the only decomposition with those bounds: any days, hours,
      minutes, seconds and leftover milliseconds that add up to a positive
      difference are the ones shown. */
  lemma CountdownUnique(deadline: int, now: int, d: int, h: int, m: int, s: int, ms: int)
    requires deadline - now > 0
    requires d >= 0 && 0 <= h < 24 && 0 <= m < 60 && 0 <= s < 60 && 0 <= ms < 1000
    requires d * MS_PER_DAY + h * MS_PER_HOUR + m * MS_PER_MINUTE + s * MS_PER_SECOND + ms == deadline - now
    ensures Countdown(deadline, now) == TimeLeft(d, h, m, s, false)
  {
  }

  /** At the deadline itself the countdown shows zeros and says it has passed. */
  lemma AtDeadline(deadline: int)
    ensures Countdown(deadline, deadline) == TimeLeft(0, 0, 0, 0, true)
  {
  }

  /** One second before the deadline it shows 0 days, 0 hours, 0 minutes, 1 second. */
  lemma OneSecondBefore(deadline: int)
    ensures Countdown(deadline, deadline - 1000) == TimeLeft(0, 0, 0, 1, false)
  {
  }
}
