/** The Battles page: the create-battle form, the vote buttons of each listed battle, the
    "m:ss" countdown text and the inline vote-share bar. The contract write behind each
    handler is not modelled: a handler is split at its `await` into a Begin and a Finish
    step, and the write's outcome (resolved or thrown) is the `succeeded` parameter. */
module Battles {
  import opened Wrappers
  import opened Decimal
  import opened AddressFormat
  import BattleCard
  import Countdown

  /** The fee sent with createBattle, in wei (0.0002 BNB). */
  const CreationFee: nat := 200000000000000

  datatype WriteCall =
    | CreateBattle(token1: Address, token2: Address, value: nat)
    | Vote(battleId: int, votingFor: Address)

  datatype Toast = Success(message: string) | Failure(message: string)

  /** calculateTimeLeft: "Ended" once the end time is reached, otherwise whole minutes
      (not capped at 60), ':' and the seconds padded to two digits. */
  function TimeLeftText(endTime: int, now: int): (r: string)
    ensures endTime - now <= 0 <==> r == "Ended"
    ensures endTime - now > 0 ==>
              ParseClock(r) == Some([(endTime - now) / 60, (endTime - now) % 60])
  {
    var timeLeft := endTime - now;
    if timeLeft <= 0 then "Ended"
    else
      ClockTextReads(timeLeft / 60, timeLeft % 60);
      ClockText(timeLeft / 60, timeLeft % 60)
  }

  /** While time remains, the text is two ':'-separated fields: the unpadded minutes and
      the seconds padded to exactly two digits. */
  lemma TimeLeftFields(endTime: int, now: int)
    requires endTime - now > 0
    ensures var r := TimeLeftText(endTime, now);
            && Fields(r) == [NatToDecimal((endTime - now) / 60), BattleCard.FormatTime((endTime - now) % 60)]
            && |Fields(r)[1]| == 2
  {
    TimeLeftIsClock(endTime, now);
    ClockTextFields((endTime - now) / 60, (endTime - now) % 60);
  }

  lemma TimeLeftIsClock(endTime: int, now: int)
    requires endTime - now > 0
    ensures TimeLeftText(endTime, now) == ClockText((endTime - now) / 60, (endTime - now) % 60)
  {
  }

  /** Whole minutes, ':' and the seconds padded to two digits. */
  function ClockText(minutes: nat, seconds: nat): string
  {
    NatToDecimal(minutes) + ":" + BattleCard.FormatTime(seconds)
  }

  lemma ClockTextFields(minutes: nat, seconds: nat)
    requires seconds < 60
    ensures Fields(ClockText(minutes, seconds)) == [NatToDecimal(minutes), BattleCard.FormatTime(seconds)]
    ensures |BattleCard.FormatTime(seconds)| == 2
  {
    MinutesSecondsFields(minutes, seconds);
  }

  lemma ClockTextReads(minutes: nat, seconds: nat)
    ensures ParseClock(ClockText(minutes, seconds)) == Some([minutes, seconds])
    ensures ClockText(minutes, seconds) != "Ended"
  {
    MinutesSecondsClock(minutes, seconds);
    EndedIsNotClock();
  }

  lemma MinutesSecondsFields(minutes: nat, seconds: nat)
    ensures Fields(NatToDecimal(minutes) + ":" + BattleCard.FormatTime(seconds))
         == [NatToDecimal(minutes), BattleCard.FormatTime(seconds)]
  {
    DigitFieldsTwo(NatToDecimal(minutes), BattleCard.FormatTime(seconds));
  }

  lemma MinutesSecondsClock(minutes: nat, seconds: nat)
    ensures ParseClock(NatToDecimal(minutes) + ":" + BattleCard.FormatTime(seconds)) == Some([minutes, seconds])
  {
    DecimalRoundTrip(minutes);
    TwoFieldClock(NatToDecimal(minutes), BattleCard.FormatTime(seconds));
  }

  lemma EndedIsNotClock()
    ensures ParseClock("Ended") == None
  {
    FieldsNoColon("Ended");
    assert !AllDigits("Ended") by { assert !IsDigit("Ended"[0]); }
    assert ["Ended"][0] == "Ended";
  }

  /** While time remains, the text reads back as minutes and seconds below 60 that make up
      exactly the remaining time. */
  lemma TimeLeftReadBack(endTime: int, now: int)
    requires endTime - now > 0
    ensures var c := ParseClock(TimeLeftText(endTime, now));
            && c.Some? && |c.value| == 2 && c.value[1] < 60
            && Seconds(c.value) == endTime - now
  {
    ClockReadBack(TimeLeftText(endTime, now), endTime - now);
  }

  /** A text that reads back as [tl / 60, tl % 60] stands for tl seconds. */
  lemma ClockReadBack(r: string, tl: int)
    requires tl > 0 && ParseClock(r) == Some([tl / 60, tl % 60])
    ensures var c := ParseClock(r);
            && c.Some? && |c.value| == 2 && c.value[1] < 60
            && Seconds(c.value) == tl
  {
    SecondsTwo(tl / 60, tl % 60);
  }

  /** The page's text and the battle card's countdown agree: the minutes shown are the
      countdown's days, hours and minutes in minutes, the seconds are its seconds. */
  lemma TimeLeftMatchesCountdown(endTime: int, now: int)
    requires endTime - now > 0
    ensures var t := Countdown.CalculateTimeLeft(endTime, now);
            ParseClock(TimeLeftText(endTime, now))
              == Some([t.days * 1440 + t.hours * 60 + t.minutes, t.seconds])
  {
    var tl := endTime - now;
    assert ParseClock(TimeLeftText(endTime, now)) == Some([tl / 60, tl % 60]);
    CountdownMinutes(endTime, now);
  }

  lemma CountdownMinutes(endTime: int, now: int)
    requires endTime - now > 0
    ensures var t := Countdown.CalculateTimeLeft(endTime, now);
            && (endTime - now) / 60 == t.days * 1440 + t.hours * 60 + t.minutes
            && (endTime - now) % 60 == t.seconds
  {
    var t := Countdown.CalculateTimeLeft(endTime, now);
    var q := t.days * 1440 + t.hours * 60 + t.minutes;
    Regroup(t.days, t.hours, t.minutes);
    MinutesOf(endTime - now, q, t.seconds);
  }

  lemma Regroup(d: int, h: int, m: int)
    ensures (d * 1440 + h * 60 + m) * 60 == d * 86400 + h * 3600 + m * 60
  {
  }

  lemma MinutesOf(tl: int, q: int, r: int)
    requires 0 <= r < 60 && tl == q * 60 + r
    ensures tl / 60 == q && tl % 60 == r
  {
  }

  /** The inline progress expression `votes1 / (votes1 + votes2) * 100 || 50`: NaN (no votes)
      and 0 (side 1 has none) are both falsy, so either shows 50. */
  function InlineProgress(votes1: nat, votes2: nat): (p: real)
    ensures votes1 == 0 ==> p == 50.0
    ensures votes1 > 0 ==> p * (votes1 + votes2) as real == (votes1 * 100) as real
  {
    if votes1 == 0 then 50.0
    else (votes1 * 100) as real / (votes1 + votes2) as real
  }

  /** The inline bar agrees with the battle card's share except when side 1 has no votes and
      side 2 has some: then the card shows 0 and the page shows 50. */
  lemma {:induction false} InlineProgressDiffers(votes1: nat, votes2: nat)
    ensures (InlineProgress(votes1, votes2) != BattleCard.ProgressValue(votes1, votes2))
        <==> (votes1 == 0 && votes2 > 0)
  {
    if votes1 > 0 {
      var t := (votes1 + votes2) as real;
      var p, q := InlineProgress(votes1, votes2), BattleCard.ProgressValue(votes1, votes2);
      assert p * t == q * t;
      BattleCard.CancelPositive(p, q, t);
    }
  }

  /** The page's create form and vote buttons, as the state the handlers update. */
  class BattlesPage {
    var selectedToken1: string
    var selectedToken2: string
    var isCreating: bool
    var isVoting: Option<int>
    /** Contract writes issued, oldest first. */
    var writes: seq<WriteCall>
    /** Toasts shown, oldest first. */
    var toasts: seq<Toast>

    constructor ()
      ensures selectedToken1 == "" && selectedToken2 == ""
      ensures !isCreating && isVoting == None
      ensures writes == [] && toasts == []
    {
      selectedToken1 := "";
      selectedToken2 := "";
      isCreating := false;
      isVoting := None;
      writes := [];
      toasts := [];
    }

    /** The create button's `disabled`. */
    predicate CreateDisabled(): (r: bool)
      reads this
      ensures isCreating ==> r
      ensures selectedToken1 == "" || selectedToken2 == "" ==> r
      ensures r ==> isCreating || selectedToken1 == "" || selectedToken2 == ""
    {
      isCreating || selectedToken1 == "" || selectedToken2 == ""
    }

    /** Both vote buttons of battle `battleId` have this `disabled`. */
    predicate VoteDisabled(battleId: int): (r: bool)
      reads this
      ensures r <==> isVoting.Some? && isVoting.value == battleId
      ensures r ==> forall other :: other != battleId ==> isVoting != Some(other)
    {
      isVoting == Some(battleId)
    }

    method SelectToken1(token: Address)
      modifies this
      ensures selectedToken1 == token
      ensures selectedToken2 == old(selectedToken2) && isCreating == old(isCreating)
      ensures isVoting == old(isVoting) && writes == old(writes) && toasts == old(toasts)
    {
      selectedToken1 := token;
    }

    method SelectToken2(token: Address)
      modifies this
      ensures selectedToken2 == token
      ensures selectedToken1 == old(selectedToken1) && isCreating == old(isCreating)
      ensures isVoting == old(isVoting) && writes == old(writes) && toasts == old(toasts)
    {
      selectedToken2 := token;
    }

    /** handleCreateBattle up to its `await`: with a token missing, only an error toast;
        otherwise the form is marked busy and the createBattle write is issued. */
    method BeginCreateBattle() returns (submitted: bool)
      modifies this
      ensures submitted <==> old(selectedToken1) != "" && old(selectedToken2) != ""
      ensures !submitted ==> && writes == old(writes) && isCreating == old(isCreating)
                             && toasts == old(toasts) + [Failure("Please select both tokens")]
      ensures submitted ==> && isCreating && CreateDisabled() && toasts == old(toasts)
                            && writes == old(writes) + [CreateBattle(selectedToken1, selectedToken2, CreationFee)]
      ensures selectedToken1 == old(selectedToken1) && selectedToken2 == old(selectedToken2)
      ensures isVoting == old(isVoting)
    {
      if selectedToken1 == "" || selectedToken2 == "" {
        toasts := toasts + [Failure("Please select both tokens")];
        return false;
      }
      isCreating := true;
      writes := writes + [CreateBattle(selectedToken1, selectedToken2, CreationFee)];
      return true;
    }

    /** handleCreateBattle after its `await`: the form is never left busy; the selections are
        cleared only when the write went through, which leaves the button disabled. */
    method FinishCreateBattle(succeeded: bool)
      modifies this
      ensures !isCreating
      ensures succeeded ==> && selectedToken1 == "" && selectedToken2 == "" && CreateDisabled()
                            && toasts == old(toasts) + [Success("Battle creation initiated!")]
      ensures !succeeded ==> && selectedToken1 == old(selectedToken1) && selectedToken2 == old(selectedToken2)
                             && toasts == old(toasts) + [Failure("Failed to create battle")]
      ensures writes == old(writes) && isVoting == old(isVoting)
    {
      if succeeded {
        toasts := toasts + [Success("Battle creation initiated!")];
        selectedToken1 := "";
        selectedToken2 := "";
      } else {
        toasts := toasts + [Failure("Failed to create battle")];
      }
      isCreating := false;
    }

    /** handleVote up to its `await`: the battle is marked as being voted on and the vote is
        written. */
    method BeginVote(battleId: int, votingFor: Address)
      modifies this
      ensures isVoting == Some(battleId) && VoteDisabled(battleId)
      ensures writes == old(writes) + [Vote(battleId, votingFor)]
      ensures selectedToken1 == old(selectedToken1) && selectedToken2 == old(selectedToken2)
      ensures isCreating == old(isCreating) && toasts == old(toasts)
    {
      isVoting := Some(battleId);
      writes := writes + [Vote(battleId, votingFor)];
    }

    /** handleVote after its `await`: the marker is cleared on both paths. */
    method FinishVote(succeeded: bool)
      modifies this
      ensures isVoting == None && forall id :: !VoteDisabled(id)
      ensures toasts == old(toasts) + [if succeeded then Success("Vote submitted!") else Failure("Failed to vote")]
      ensures selectedToken1 == old(selectedToken1) && selectedToken2 == old(selectedToken2)
      ensures isCreating == old(isCreating) && writes == old(writes)
    {
      toasts := toasts + [if succeeded then Success("Vote submitted!") else Failure("Failed to vote")];
      isVoting := None;
    }
  }

  /** A vote on battle 1 and then, before it settles, a vote on battle 2: when the first one
      finishes, battle 2's buttons are enabled again although its vote is still outstanding. */
  method OverlappingVotes(first: int, second: int, voter: Address) returns (secondPending: bool, secondDisabled: bool)
    requires first != second
    ensures secondPending && !secondDisabled
  {
    var page := new BattlesPage();
    page.BeginVote(first, voter);
    page.BeginVote(second, voter);
    page.FinishVote(true);
    secondPending := page.writes == [Vote(first, voter), Vote(second, voter)] && |page.toasts| == 1;
    secondDisabled := page.VoteDisabled(second);
  }

  /** Per-battle in-flight votes: each vote marks its own battle and clears only that one. */
  class VoteTracker {
    var pending: set<int>

    constructor ()
      ensures pending == {}
    {
      pending := {};
    }

    predicate VoteDisabled(battleId: int)
      reads this
    {
      battleId in pending
    }

    method BeginVote(battleId: int)
      modifies this
      ensures pending == old(pending) + {battleId}
      ensures VoteDisabled(battleId)
    {
      pending := pending + {battleId};
    }

    method FinishVote(battleId: int)
      modifies this
      ensures pending == old(pending) - {battleId}
      ensures !VoteDisabled(battleId)
      ensures forall id :: id != battleId ==> (VoteDisabled(id) <==> old(VoteDisabled(id)))
    {
      pending := pending - {battleId};
    }
  }

  /** The same overlap with per-battle markers: battle 2 stays disabled until its own vote ends. */
  method OverlappingVotesTracked(first: int, second: int) returns (secondDisabled: bool, afterSecond: bool)
    requires first != second
    ensures secondDisabled && !afterSecond
  {
    var tracker := new VoteTracker();
    tracker.BeginVote(first);
    tracker.BeginVote(second);
    tracker.FinishVote(first);
    secondDisabled := tracker.VoteDisabled(second);
    tracker.FinishVote(second);
    afterSecond := tracker.VoteDisabled(second) || tracker.VoteDisabled(first);
  }
}
