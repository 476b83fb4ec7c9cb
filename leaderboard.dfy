/** The Leaderboard page: which of its four views is shown, and the ranked cards built by
    zipping the leaderboard's parallel arrays. The two contract reads are inputs. */
module Leaderboard {
  import opened Wrappers
  import opened AddressFormat
  import opened Tokens
  import LeaderboardCard

  /** What a contract read hook reports: its data, its flags, and its error's message. */
  datatype Query<T> = Query(data: Option<T>, isLoading: bool, isError: bool, errorMessage: Option<string>)

  /** The leaderboard read: addresses (possibly missing) and per-address statistics. */
  datatype Standings = Standings(addresses: Option<seq<Address>>,
                                 wins: seq<nat>, battles: seq<nat>, votes: seq<nat>)

  /** One card's properties; a statistic is absent when its array is shorter than the
      address list (the page then reads `undefined`). */
  datatype Card = Card(token: Address, tokenData: Option<TokenInfo>, rank: nat,
                       wins: Option<nat>, totalBattles: Option<nat>, totalVotes: Option<nat>)

  datatype View = Loading | Failed(message: string) | Empty | Ranked(cards: seq<Card>)

  const DefaultErrorMessage := "Failed to load leaderboard data. Please try again."

  /** The first non-empty message among the token error, the leaderboard error and the
      default text (an empty message is falsy and falls through). */
  function ErrorMessage(tokenError: Option<string>, boardError: Option<string>): (r: string)
    ensures r != ""
    ensures tokenError.Some? && tokenError.value != "" ==> r == tokenError.value
    ensures r in {tokenError.GetOr(""), boardError.GetOr(""), DefaultErrorMessage}
  {
    if tokenError.Some? && tokenError.value != "" then tokenError.value
    else if boardError.Some? && boardError.value != "" then boardError.value
    else DefaultErrorMessage
  }

  /** The leaderboard's error message is shown only when the token read has none. */
  lemma BoardMessageFallback(tokenError: Option<string>, boardError: Option<string>)
    requires tokenError.GetOr("") == "" && boardError.GetOr("") != ""
    ensures ErrorMessage(tokenError, boardError) == boardError.value
  {
  }

  function At(xs: seq<nat>, i: nat): Option<nat>
  {
    if i < |xs| then Some(xs[i]) else None
  }

  /** The cards, one per address in leaderboard order. */
  function Cards(tokens: Option<seq<TokenInfo>>, s: Standings): (cards: seq<Card>)
    requires s.addresses.Some?
    ensures |cards| == |s.addresses.value|
    ensures forall i :: 0 <= i < |cards| ==>
              && cards[i].token == s.addresses.value[i] && cards[i].rank == i
              && (cards[i].tokenData.Some? ==> cards[i].tokenData.value.token == cards[i].token)
  {
    var addresses := s.addresses.value;
    seq(|addresses|, i requires 0 <= i < |addresses| =>
      Card(addresses[i], FindToken(tokens, addresses[i]), i,
           At(s.wins, i), At(s.battles, i), At(s.votes, i)))
  }

  /** With the arrays aligned, card i carries exactly the i-th statistics. */
  lemma AlignedStats(tokens: Option<seq<TokenInfo>>, s: Standings, i: nat)
    requires s.addresses.Some? && i < |s.addresses.value|
    requires |s.wins| == |s.battles| == |s.votes| == |s.addresses.value|
    ensures var c := Cards(tokens, s)[i];
            c.wins == Some(s.wins[i]) && c.totalBattles == Some(s.battles[i]) && c.totalVotes == Some(s.votes[i])
  {
  }

  /** A card's token data is the first listed token with the card's address, if any. */
  lemma CardTokenData(tokens: seq<TokenInfo>, s: Standings, i: nat)
    requires s.addresses.Some? && i < |s.addresses.value|
    ensures var c := Cards(Some(tokens), s)[i];
            && (c.tokenData.Some? <==> exists k :: 0 <= k < |tokens| && tokens[k].token == c.token)
            && (c.tokenData.Some? ==> exists k :: && 0 <= k < |tokens| && tokens[k] == c.tokenData.value
                                                  && forall j :: 0 <= j < k ==> tokens[j].token != c.token)
  {
  }

  /** No two cards show the same badge. */
  lemma DistinctBadges(tokens: Option<seq<TokenInfo>>, s: Standings, i: nat, j: nat)
    requires s.addresses.Some? && i < j < |s.addresses.value|
    ensures var cards := Cards(tokens, s);
            LeaderboardCard.GetRankBadge(cards[i].rank) != LeaderboardCard.GetRankBadge(cards[j].rank)
  {
    var cards := Cards(tokens, s);
    if LeaderboardCard.GetRankBadge(cards[i].rank) == LeaderboardCard.GetRankBadge(cards[j].rank) {
      LeaderboardCard.RankBadgeInjective(cards[i].rank, cards[j].rank);
    }
  }

  /** The page: loading first, then an error, then the empty state, then the cards. */
  function LeaderboardView(tokens: Query<seq<TokenInfo>>, board: Query<Standings>): (v: View)
    ensures v.Loading? <==> tokens.isLoading || board.isLoading
    ensures v.Failed? <==> !tokens.isLoading && !board.isLoading && (tokens.isError || board.isError)
    ensures v.Failed? ==> v.message == ErrorMessage(tokens.errorMessage, board.errorMessage)
    ensures v.Empty? <==> && !tokens.isLoading && !board.isLoading && !tokens.isError && !board.isError
                          && (board.data == None || board.data.value.addresses == None
                              || |board.data.value.addresses.value| == 0)
    ensures v.Ranked? ==> v.cards == Cards(tokens.data, board.data.value) && |v.cards| > 0
  {
    if tokens.isLoading || board.isLoading then Loading
    else if tokens.isError || board.isError then Failed(ErrorMessage(tokens.errorMessage, board.errorMessage))
    else if board.data == None || board.data.value.addresses == None
            || |board.data.value.addresses.value| == 0 then Empty
    else Ranked(Cards(tokens.data, board.data.value))
  }

  /** Loading hides everything else; an error hides the empty state and the list. */
  lemma ViewPrecedence(tokens: Query<seq<TokenInfo>>, board: Query<Standings>)
    ensures tokens.isLoading ==> LeaderboardView(tokens, board) == Loading
    ensures !tokens.isLoading && !board.isLoading && board.isError ==> LeaderboardView(tokens, board).Failed?
    ensures LeaderboardView(tokens, board).Ranked? ==> |board.data.value.addresses.value| > 0
  {
  }
  /** The page as wired: it destructures `leaderboard` from `useLeaderboard(10)`, which hands
      back the read hook's own result. That result carries the standings under `data` and
      has no `leaderboard` field, so the page's `leaderboard` is always undefined. */
  function PageAsWritten(tokens: Query<seq<TokenInfo>>, board: Query<Standings>): (v: View)
    ensures !v.Ranked?
    ensures !tokens.isLoading && !board.isLoading && !tokens.isError && !board.isError ==> v == Empty
  {
    LeaderboardView(tokens, board.(data := None))
  }

  /** Loaded standings with one address: the intended page ranks it, the wired page shows
      the empty state. */
  lemma PageAsWrittenHidesStandings()
    ensures var tokens := Query(Some([]), false, false, None);
            var board := Query(Some(Standings(Some(["0xa"]), [1], [2], [3])), false, false, None);
            && LeaderboardView(tokens, board).Ranked?
            && PageAsWritten(tokens, board) == Empty
  {
    var board := Query(Some(Standings(Some(["0xa"]), [1], [2], [3])), false, false, None);
    assert |board.data.value.addresses.value| == 1;
  }
}
