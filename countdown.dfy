/** useCountdown: the remaining time until a battle's end, split into days, hours, minutes
    and seconds, with a floor of zero once the end has passed. The wall clock is the
    parameter `now` (whole Unix seconds); the hook's one-second interval is a repeated call. */
module Countdown {


  datatype TimeLeft = TimeLeft(days: int, hours: int, minutes: int, seconds: int, total: int)

  const Expired := TimeLeft(0, 0, 0, 0, 0)

  /** The breakdown is a valid mixed-radix representation of `total`. */
  predicate WellFormed(t: TimeLeft) {
    && t.days >= 0
    && 0 <= t.hours < 24
    && 0 <= t.minutes < 60
    && 0 <= t.seconds < 60
    && t.days * 86400 + t.hours * 3600 + t.minutes * 60 + t.seconds == t.total
  }

  /** calculateTimeLeft: nothing negative ever comes out, and while time remains the
      fields recompose to exactly `endTime - now`. */
  function CalculateTimeLeft(endTime: int, now: int): (t: TimeLeft)
    ensures t.total >= 0
    ensures endTime - now <= 0 <==> t == Expired
    ensures endTime - now > 0 ==> t.total == endTime - now
    ensures WellFormed(t)
  {
    var total := endTime - now;
    if total <= 0 then Expired
    else
      Decompose(total);
      TimeLeft(total / 86400, (total % 86400) / 3600,
               (total % 3600) / 60, total % 60, total)
  }

  /** Floor division by a day, then by an hour and a minute, recomposes the total. */
  lemma Decompose(total: nat)
    ensures var h := (total % 86400) / 3600;
            var m := (total % 3600) / 60;
            && 0 <= h < 24 && 0 <= m < 60
            && (total / 86400) * 86400 + h * 3600 + m * 60 + total % 60 == total
  {
    var d, r := total / 86400, total % 86400;
    var h, r2 := r / 3600, r % 3600;
    var m, s := r2 / 60, r2 % 60;
    assert total == d * 86400 + r;
    assert r == h * 3600 + r2;
    assert r2 == m * 60 + s;
    // r % 3600 agrees with total % 3600 because 86400 is a multiple of 3600
    assert total == (d * 24 + h) * 3600 + r2;
    HourRemainder(d * 24 + h, r2);
    // and r2 % 60 agrees with total % 60 because 3600 is a multiple of 60
    assert total == ((d * 24 + h) * 60 + m) * 60 + s;
    MinuteRemainder((d * 24 + h) * 60 + m, s);
  }

  lemma HourRemainder(k: nat, r: nat)
    requires r < 3600
    ensures (k * 3600 + r) % 3600 == r
  {
  }

  lemma MinuteRemainder(k: nat, r: nat)
    requires r < 60
    ensures (k * 60 + r) % 60 == r
  {
  }

  /** One tick of the countdown's interval takes exactly one second off, down to zero. */
  lemma Tick(endTime: int, now: int)
    ensures CalculateTimeLeft(endTime, now + 1).total
         == if CalculateTimeLeft(endTime, now).total > 0 then CalculateTimeLeft(endTime, now).total - 1 else 0
  {
    var t0, t1 := CalculateTimeLeft(endTime, now), CalculateTimeLeft(endTime, now + 1);
    if endTime - now > 0 {
      assert t0.total == endTime - now;
    } else {
      assert t0 == Expired;
    }
  }

  /** The remaining time never grows as the clock advances; once expired it stays expired. */
  lemma Monotone(endTime: int, now: int, later: int)
    requires now <= later
    ensures CalculateTimeLeft(endTime, later).total <= CalculateTimeLeft(endTime, now).total
    ensures CalculateTimeLeft(endTime, now) == Expired ==> CalculateTimeLeft(endTime, later) == Expired
  {
  }
}
