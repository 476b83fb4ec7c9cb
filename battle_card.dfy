/** BattleCard: how one battle is displayed — the vote-share bar, the countdown header, and
    which actions (vote, settle) are offered. Progress is exact rational arithmetic; its
    `toFixed(1)` rendering is not modelled. */
module BattleCard {
  import opened Wrappers
  import opened JsString
  import opened Decimal
  import opened AddressFormat
  import opened Tokens
  import Countdown

  datatype Battle = Battle(id: int, token1: Address, token2: Address,
                           token1Votes: nat, token2Votes: nat,
                           startTime: int, endTime: int,
                           settled: bool, winner: Option<Address>)

  /** canSettle: a battle may be settled once its end time has been reached and it is not
      settled yet — exactly when it is unsettled and its countdown has run out. */
  function CanSettle(b: Battle, now: int): (r: bool)
    ensures r ==> !b.settled && b.endTime <= now
    ensures r <==> !b.settled && Countdown.CalculateTimeLeft(b.endTime, now).total == 0
  {
    !b.settled && b.endTime <= now
  }

  /** calculateProgressValue: side 1's share of the votes in percent, 50 when nobody voted. */
  function ProgressValue(votes1: nat, votes2: nat): (p: real)
    ensures 0.0 <= p <= 100.0
    ensures votes1 == 0 && votes2 == 0 ==> p == 50.0
    ensures votes1 + votes2 > 0 ==> p * (votes1 + votes2) as real == (votes1 * 100) as real
    ensures votes1 == 0 && votes2 > 0 ==> p == 0.0
    ensures votes1 > 0 && votes2 == 0 ==> p == 100.0
  {
    if votes1 == 0 && votes2 == 0 then 50.0
    else
      var total := votes1 + votes2;
      if total == 0 then 50.0
      else
        ShareBounds(votes1, total);
        (votes1 * 100) as real / total as real
  }

  lemma ShareBounds(part: nat, total: nat)
    requires 0 < total && part <= total
    ensures 0.0 <= (part * 100) as real / total as real <= 100.0
  {
    var q := (part * 100) as real / total as real;
    assert q * total as real == (part * 100) as real;
    assert (part * 100) as real == part as real * 100.0;
    PercentBounds(q, total as real, part as real);
  }

  /** v percent of t is w, and w lies between 0 and t: v is a percentage. */
  lemma PercentBounds(v: real, t: real, w: real)
    requires t > 0.0 && 0.0 <= w <= t && v * t == w * 100.0
    ensures 0.0 <= v <= 100.0
  {
    assert v == w / t * 100.0;
    assert w / t <= 1.0;
  }

  /** The two sides' shares add up to 100 whenever somebody voted. */
  lemma ProgressComplement(votes1: nat, votes2: nat)
    requires votes1 + votes2 > 0
    ensures ProgressValue(votes1, votes2) + ProgressValue(votes2, votes1) == 100.0
  {
    var t := (votes1 + votes2) as real;
    var p, q := ProgressValue(votes1, votes2), ProgressValue(votes2, votes1);
    assert p * t == (votes1 * 100) as real;
    assert q * t == (votes2 * 100) as real;
    calc {
      (p + q) * t;
      p * t + q * t;
      (votes1 * 100) as real + (votes2 * 100) as real;
      100.0 * t;
    }
    CancelPositive(p + q, 100.0, t);
  }

  lemma CancelPositive(x: real, y: real, t: real)
    requires t > 0.0 && x * t == y * t
    ensures x == y
  {
    assert (x - y) * t == 0.0;
  }

  lemma FractionLe(a: real, b: real, c: real, d: real)
    requires b > 0.0 && d > 0.0 && a * d <= c * b
    ensures a / b <= c / d
  {
    var x, y := a / b, c / d;
    assert x * b == a && y * d == c;
    assert x * b * d <= y * d * b;
  }

  /** A vote for side 1 never lowers its share, and a vote for side 2 never raises it. */
  lemma ProgressMonotone(votes1: nat, votes2: nat)
    requires votes1 + votes2 > 0
    ensures ProgressValue(votes1, votes2) <= ProgressValue(votes1 + 1, votes2)
    ensures ProgressValue(votes1, votes2 + 1) <= ProgressValue(votes1, votes2)
  {
    var a, a1 := (votes1 * 100) as real, ((votes1 + 1) * 100) as real;
    var t, t1 := (votes1 + votes2) as real, (votes1 + votes2 + 1) as real;
    assert ProgressValue(votes1, votes2) == a / t;
    assert ProgressValue(votes1 + 1, votes2) == a1 / t1;
    assert ProgressValue(votes1, votes2 + 1) == a / t1;
    // a * t1 = 100 v1 (t + 1) <= 100 (v1 + 1) t = a1 * t, since v1 <= t
    assert a * t1 == a * t + a;
    assert a1 * t == a * t + 100.0 * t;
    FractionLe(a, t, a1, t1);
    assert a * t <= a * t1;
    FractionLe(a, t1, a, t);
  }

  /** The label under the bar: side 1's share and the rest, `p% - (100 - p)%`. */
  function ProgressLabel(votes1: nat, votes2: nat): (r: (real, real))
    ensures r.0 + r.1 == 100.0
    ensures votes1 + votes2 > 0 ==> r.1 == ProgressValue(votes2, votes1)
    ensures votes1 + votes2 == 0 ==> r == (50.0, 50.0)
  {
    var p := ProgressValue(votes1, votes2);
    if votes1 + votes2 > 0 then ProgressComplement(votes1, votes2); (p, 100.0 - p)
    else (p, 100.0 - p)
  }

  /** formatTime: the decimal numeral of n left-padded with '0' to two characters. */
  function FormatTime(n: nat): (r: string)
    ensures |r| >= 2 && AllDigits(r) && DecimalValue(r) == n
    ensures n < 100 ==> |r| == 2
  {
    var r := PadStart(NatToDecimal(n), 2, '0');
    DecimalRoundTrip(n);
    LeadingZeros(r[..|r| - |NatToDecimal(n)|], NatToDecimal(n));
    assert r == r[..|r| - |NatToDecimal(n)|] + NatToDecimal(n);
    r
  }

  /** The header's timer: `hh:` only when hours > 0, then `mm:ss`; days are not shown. */
  function TimerText(hours: nat, minutes: nat, seconds: nat): (r: string)
    ensures Fields(r) == if hours > 0 then [FormatTime(hours), FormatTime(minutes), FormatTime(seconds)]
                         else [FormatTime(minutes), FormatTime(seconds)]
  {
    var hh, mm, ss := FormatTime(hours), FormatTime(minutes), FormatTime(seconds);
    if hours > 0 then DigitFieldsThree(hh, mm, ss); hh + ":" + mm + ":" + ss
    else DigitFieldsTwo(mm, ss); mm + ":" + ss
  }

  datatype BadgeVariant = Secondary | Destructive
  datatype Header = Timer(text: string) | Badge(caption: string, variant: BadgeVariant)

  /** The card header: the running timer while time remains, otherwise a badge. */
  function CardHeader(b: Battle, t: Countdown.TimeLeft): (h: Header)
    requires Countdown.WellFormed(t)
    ensures t.total > 0 <==> h.Timer?
    ensures h.Timer? ==> h.text == TimerText(t.hours, t.minutes, t.seconds)
    ensures h.Badge? ==> (h.variant == Secondary <==> b.settled)
    ensures t.total <= 0 ==> (h.caption == "Settled" <==> b.settled)
    ensures t.total <= 0 ==> (h.caption == "Ready to Settle" <==> !b.settled)
  {
    if t.total > 0 then Timer(TimerText(t.hours, t.minutes, t.seconds))
    else if b.settled then Badge("Settled", Secondary)
    else Badge("Ready to Settle", Destructive)
  }

  /** Below a day, the remaining seconds are hours * 3600 + minutes * 60 + seconds. */
  lemma WithinDay(t: Countdown.TimeLeft)
    requires Countdown.WellFormed(t)
    ensures t.total % 86400 == t.hours * 3600 + t.minutes * 60 + t.seconds
  {
    var r := t.hours * 3600 + t.minutes * 60 + t.seconds;
    assert 0 <= r < 86400;
    assert t.total == t.days * 86400 + r;
  }

  /** The timer reads back as the remaining time within the current day: the days are
      dropped from the display. */
  lemma TimerTextValue(t: Countdown.TimeLeft)
    requires Countdown.WellFormed(t) && t.total > 0
    ensures var c := ParseClock(TimerText(t.hours, t.minutes, t.seconds));
            c.Some? && Seconds(c.value) == t.total % 86400
  {
    WithinDay(t);
    TimerClock(t.hours, t.minutes, t.seconds);
  }

  /** The timer text reads back as its fields: hours (only when positive), minutes, seconds. */
  lemma TimerClock(hours: nat, minutes: nat, seconds: nat)
    ensures ParseClock(TimerText(hours, minutes, seconds))
         == Some(if hours > 0 then [hours, minutes, seconds] else [minutes, seconds])
    ensures Seconds(if hours > 0 then [hours, minutes, seconds] else [minutes, seconds])
         == hours * 3600 + minutes * 60 + seconds
  {
    if hours > 0 {
      HoursClock(hours, minutes, seconds);
      SecondsThree(hours, minutes, seconds);
    } else {
      MinutesClock(minutes, seconds);
      SecondsTwo(minutes, seconds);
    }
  }

  lemma HoursClock(hours: nat, minutes: nat, seconds: nat)
    requires hours > 0
    ensures ParseClock(TimerText(hours, minutes, seconds)) == Some([hours, minutes, seconds])
  {
    var hh, mm, ss := FormatTime(hours), FormatTime(minutes), FormatTime(seconds);
    assert TimerText(hours, minutes, seconds) == hh + ":" + mm + ":" + ss;
    ThreeFieldClock(hh, mm, ss);
  }

  lemma MinutesClock(minutes: nat, seconds: nat)
    ensures ParseClock(TimerText(0, minutes, seconds)) == Some([minutes, seconds])
  {
    var mm, ss := FormatTime(minutes), FormatTime(seconds);
    assert TimerText(0, minutes, seconds) == mm + ":" + ss;
    TwoFieldClock(mm, ss);
  }

  /** Two countdowns a whole number of days apart show the same timer. */
  lemma TimerIgnoresDays(endTime: int, now: int, days: nat)
    requires endTime - now > 0
    ensures var t1 := Countdown.CalculateTimeLeft(endTime, now);
            var t2 := Countdown.CalculateTimeLeft(endTime + days * 86400, now);
            TimerText(t2.hours, t2.minutes, t2.seconds) == TimerText(t1.hours, t1.minutes, t1.seconds)
  {
    var t1 := Countdown.CalculateTimeLeft(endTime, now);
    var t2 := Countdown.CalculateTimeLeft(endTime + days * 86400, now);
    WithinDay(t1);
    WithinDay(t2);
    assert t2.total == t1.total + days * 86400;
    SameRemainder(t1.total, days);
    SameClock(t1, t2);
  }

  lemma SameRemainder(x: int, days: nat)
    ensures (x + days * 86400) % 86400 == x % 86400
  {
    var q, r := x / 86400, x % 86400;
    assert x + days * 86400 == (q + days) * 86400 + r;
  }

  /** hours, minutes and seconds are determined by their weighted sum. */
  lemma SameClock(t1: Countdown.TimeLeft, t2: Countdown.TimeLeft)
    requires Countdown.WellFormed(t1) && Countdown.WellFormed(t2)
    requires t1.hours * 3600 + t1.minutes * 60 + t1.seconds == t2.hours * 3600 + t2.minutes * 60 + t2.seconds
    ensures t1.hours == t2.hours && t1.minutes == t2.minutes && t1.seconds == t2.seconds
  {
    var x := t1.hours * 3600 + t1.minutes * 60 + t1.seconds;
    assert x / 3600 == t1.hours && x / 3600 == t2.hours;
    var y := t1.minutes * 60 + t1.seconds;
    assert y == t2.minutes * 60 + t2.seconds;
    assert y / 60 == t1.minutes && y / 60 == t2.minutes;
  }

  /** What the card's action area offers. */
  datatype Actions = Actions(showVote: bool, voteDisabled: bool,
                             showSettle: bool, settleDisabled: bool,
                             showWinner: bool)

  /** The action area: vote buttons only for an unsettled battle whose countdown is running,
      the settle button only when canSettle; a button is disabled while this battle's own
      request is in flight; the winner line only for a settled battle with a winner. */
  function CardActions(b: Battle, t: Countdown.TimeLeft, now: int,
                       isVoting: Option<int>, isSettling: Option<int>): (a: Actions)
    ensures a.showVote <==> !b.settled && t.total > 0
    ensures a.showSettle <==> CanSettle(b, now)
    ensures a.voteDisabled <==> isVoting == Some(b.id)
    ensures a.settleDisabled <==> isSettling == Some(b.id)
    ensures a.showWinner <==> b.settled && b.winner.Some? && b.winner.value != ""
  {
    Actions(!b.settled && t.total > 0, isVoting == Some(b.id),
            !b.settled && CanSettle(b, now), isSettling == Some(b.id),
            b.settled && b.winner.Some? && b.winner.value != "")
  }

  /** With the countdown read at the same instant, an unsettled battle offers exactly one of
      voting and settling, and a settled one offers neither. */
  lemma ActionsPartition(b: Battle, now: int, isVoting: Option<int>, isSettling: Option<int>)
    ensures var a := CardActions(b, Countdown.CalculateTimeLeft(b.endTime, now), now, isVoting, isSettling);
            && !(a.showVote && a.showSettle)
            && (b.settled ==> !a.showVote && !a.showSettle)
            && (!b.settled ==> a.showVote || a.showSettle)
  {
  }
}
