/** LeaderboardCard: the figures and labels of one leaderboard entry. Win rate and average
    votes are exact rationals; the `toFixed(1)` rounding that renders them is not modelled. */
module LeaderboardCard {
  import opened Decimal
  import Tokens
  import BattleCard

  /** A displayed figure: a fixed text, or a number that is shown rounded to one decimal
      place and followed by `suffix`. */
  datatype Figure = Exact(text: string) | Rounded(value: real, suffix: string)

  /** getWinRate: "0%" when the token fought no battles (no division), otherwise the
      percentage of battles won. */
  function WinRate(wins: nat, totalBattles: nat): (r: Figure)
    ensures totalBattles == 0 <==> r == Exact("0%")
    ensures totalBattles > 0 ==> && r.Rounded? && r.suffix == "%"
                                 && r.value * totalBattles as real == (wins * 100) as real
  {
    if totalBattles == 0 then Exact("0%")
    else Rounded(wins as real / totalBattles as real * 100.0, "%")
  }

  /** A token cannot win more battles than it fought, so its win rate lies in [0, 100]. */
  lemma WinRateBounds(wins: nat, totalBattles: nat)
    requires 0 < totalBattles && wins <= totalBattles
    ensures 0.0 <= WinRate(wins, totalBattles).value <= 100.0
  {
    var v := WinRate(wins, totalBattles).value;
    assert (wins * 100) as real == wins as real * 100.0;
    BattleCard.PercentBounds(v, totalBattles as real, wins as real);
  }

  /** averageVotes: "0" when the token fought no battles, otherwise votes per battle. */
  function AverageVotes(totalVotes: nat, totalBattles: nat): (r: Figure)
    ensures totalBattles == 0 <==> r == Exact("0")
    ensures totalBattles > 0 ==> && r.Rounded? && r.suffix == ""
                                 && r.value * totalBattles as real == totalVotes as real
  {
    if totalBattles == 0 then Exact("0")
    else Rounded(totalVotes as real / totalBattles as real, "")
  }

  /** Votes that are a whole multiple of the battles average to exactly that multiple. */
  lemma AverageOfMultiple(perBattle: nat, totalBattles: nat)
    requires totalBattles > 0
    ensures AverageVotes(perBattle * totalBattles, totalBattles).value == perBattle as real
  {
    var v, t := AverageVotes(perBattle * totalBattles, totalBattles).value, totalBattles as real;
    assert v * t == perBattle as real * t;
    assert (v - perBattle as real) * t == 0.0;
  }

  datatype RankIcon = Crown | SilverMedal | BronzeMedal | Star

  /** getRankIcon: three podium icons, a star for everybody else. */
  function GetRankIcon(rank: nat): (r: RankIcon)
    ensures r != Star <==> rank < 3
    ensures rank < 3 ==> r == [Crown, SilverMedal, BronzeMedal][rank]
  {
    match rank
    case 0 => Crown
    case 1 => SilverMedal
    case 2 => BronzeMedal
    case _ => Star
  }

  /** getRankBadge: named podium places, then "Rank #n" counted from 1. */
  function GetRankBadge(rank: nat): (r: string)
    ensures rank < 3 ==> r == ["Champion", "Runner-up", "Third Place"][rank]
    ensures rank >= 3 ==> r == "Rank #" + NatToDecimal(rank + 1)
  {
    match rank
    case 0 => "Champion"
    case 1 => "Runner-up"
    case 2 => "Third Place"
    case _ => "Rank #" + NatToDecimal(rank + 1)
  }

  /** Different ranks get different badges. */
  lemma RankBadgeInjective(r1: nat, r2: nat)
    requires GetRankBadge(r1) == GetRankBadge(r2)
    ensures r1 == r2
  {
    RankBadgeKind(r1);
    RankBadgeKind(r2);
    if r1 >= 3 && r2 >= 3 {
      var s1, s2 := NatToDecimal(r1 + 1), NatToDecimal(r2 + 1);
      assert s1 == GetRankBadge(r1)[6..];
      assert s2 == GetRankBadge(r2)[6..];
      NatToDecimalInjective(r1 + 1, r2 + 1);
    }
  }

  /** Exactly the ranks from 3 on get a "Rank #" badge. */
  lemma RankBadgeKind(rank: nat)
    ensures |GetRankBadge(rank)| >= 7
    ensures GetRankBadge(rank)[..6] == "Rank #" <==> rank >= 3
  {
    if rank < 3 {
      assert GetRankBadge(rank)[1] != 'a';
    }
  }

  /** The icon and the badge make the same case split: a star exactly for the "Rank #" badges. */
  lemma IconMatchesBadge(rank: nat)
    ensures GetRankIcon(rank) == Star <==> GetRankBadge(rank)[..6] == "Rank #"
  {
    RankBadgeKind(rank);
  }

  /** The stage line: "Graduated" exactly for tokens in the graduated stage. */
  function StageLabel(t: Tokens.TokenInfo): (r: string)
    ensures r == "Graduated" <==> t.stage == Tokens.GraduatedStage
    ensures r != "Graduated" ==> r == "In Progress"
  {
    if t.stage == Tokens.GraduatedStage then "Graduated" else "In Progress"
  }
}
