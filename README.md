# memed frontend core in Dafny

This project models the logic at the heart of the memed frontend, a React app for meme-token battles on BNB Chain:

- **Battle timing:** the countdown that splits the time left in a battle into days, hours, minutes and seconds, and the "m:ss" text on the battles page.
- **Battle cards:** the vote-share bar, whether a battle can be settled, and which actions a card offers.
- **Battles page:** the create-battle and vote handlers, seen as state changes of the page.
- **Leaderboard:** its figures (win rate, average votes, rank icon and badge), which of its four views is shown, and how its cards are zipped from parallel arrays.
- **Trades table:** the block-window scan that fetches buy and sell events, the merge-and-shuffle, and each table row.
- **Token holders:** the fold of ERC-20 Transfer events into a balance record, and the list of positive holders.
- **Typewriter banner:** its state machine.
- **Shared pieces:** the address-shortening helpers and the global refresh flag.

Contract reads, wallet writes, event subscriptions, the wall clock, timers and `Math.random` are not executed by the model. Each is a parameter:
- the current time is `now`, in whole Unix seconds;
- a read or a write is its result (an `Option`, or a `succeeded` flag for a write);
- a timer tick is one call of a step method;
- the shuffle's random index is an arbitrary choice in `0..i`.

Module layout:
- **Helpers:** `Wrappers` (Option), `JsString` (`slice`, `padStart`), `Decimal` (decimal numerals, plus a reader for "a:b:c" clock texts used to state what a timer text means).
- **Shared data:** `AddressFormat` (utils.ts and lib/utils.ts) and `Tokens` (token records and the `find` lookup).
- **One module per component or hook:** `Countdown`, `BattleCard`, `Battles`, `LeaderboardCard`, `Leaderboard`, `Trades`, `TokenHolders`, `Typewriter`, `RefreshStore`.

Where the source keeps state and changes it step by step, the model is a class:
- `Battles.BattlesPage`;
- `TokenHolders.TokenHolderLedger`, over an insertion-ordered entry list, which is how `Object.entries` orders a record keyed by addresses;
- `Typewriter.TypewriterText`;
- `RefreshStore.GlobalStore`.

The methods of `TokenHolders.TokenHolderLedger` and `Typewriter.TypewriterText` are proved against a specification function (`ApplyLog` and `Fold`, `Next`). The methods of `Battles.BattlesPage` and `RefreshStore.GlobalStore` state their new field values directly, and lemmas beside them state what those values mean. The rest of the model is functions and lemmas.

## Model

| member | source | states |
|---|---|---|
| Countdown.CalculateTimeLeft | frontend/src/hooks/useCountdown.ts:12-27 | total is never negative; all fields are 0 exactly when endTime - now <= 0; otherwise total == endTime - now, hours < 24, minutes and seconds < 60, and days*86400 + hours*3600 + minutes*60 + seconds == total |
| Countdown.Tick | frontend/src/hooks/useCountdown.ts:31-37 | one more second on the clock lowers total by exactly one, down to zero |
| Countdown.Monotone | frontend/src/hooks/useCountdown.ts:13-18 | total never grows as the clock advances, and once expired the countdown stays expired |
| AddressFormat.TruncateWalletAddress | frontend/src/utils.ts:1-12 | the address itself when it is empty or at most 2*length long; otherwise the result is 2*length+3 long, and when length > 0 it is the first `length` characters, then "...", then the last `length` characters (length 0 is AddressFormat.TruncateZeroLength) |
| AddressFormat.TruncateWalletAddressDefault | frontend/src/utils.ts:3 | with the default length 6: unchanged up to 12 characters, otherwise 15 characters made of the first six, "..." and the last six |
| AddressFormat.TruncateZeroLength | frontend/src/utils.ts:5-11 | with length 0, a non-empty address comes back as "..." followed by the whole address, because `slice(-0)` is the whole string |
| AddressFormat.FormatAddress | frontend/src/lib/utils.ts:8-10 | at 6 or more characters the result is 13 long, with the first six and "..." at positions 6-8; at 4 or more it ends with the last four; shorter inputs follow JS `slice` clamping (e.g. "ab" gives "ab...ab") |
| AddressFormat.FormatFullAddress | frontend/src/pages/Battles.tsx:77-79 | a 42-character address shows "0x" plus four digits, "...", and its last four characters |
| JsString.PadStart | frontend/src/components/BattleCard.tsx:81 | the result is width characters long, or s itself when s is longer; it ends with s, and is filled with the pad character before it |
| JsString.ResolveIndex | frontend/src/utils.ts:10 | a `slice` index in [0, len] is kept; a negative index counts back from the end; the result is clamped, to len above len and to 0 below -len |
| JsString.Slice | frontend/src/lib/utils.ts:9 | `s.slice(start, end)` has b - a characters when the resolved start a is before the resolved end b, and none otherwise; character k is s[a + k] |
| JsString.SliceFrom | frontend/src/utils.ts:10 | `s.slice(start)` is the suffix of s from the resolved start |
| Decimal.NatToDecimal | frontend/src/components/BattleCard.tsx:81 | `toString()` of a natural gives a non-empty numeral of digits with no leading zero; it has one digit exactly below 10 |
| Decimal.DecimalRoundTrip | frontend/src/components/BattleCard.tsx:81 | reading the numeral back gives the number |
| Decimal.NatToDecimalInjective | frontend/src/components/leaderboard/LeaderboardCard.tsx:69 | different numbers give different numerals |
| Tokens.FindToken | frontend/src/components/BattleCard.tsx:74-75 | `tokens?.find` finds something exactly when the list exists and holds a token with the address, and it finds the first one |
| Tokens.TokenLabel | frontend/src/components/BattleCard.tsx:281-282 | `name \|\| formatAddress(address)` is never empty; it is the found token's name when that name is non-empty, and anything other than the shortened address is the name of a listed token with that address |
| BattleCard.CanSettle | frontend/src/components/BattleCard.tsx:53-54 | settling is possible exactly when the battle is unsettled and its countdown total is 0 |
| BattleCard.ProgressValue | frontend/src/components/BattleCard.tsx:56-72 | the share lies in [0, 100]; it is 50 when nobody voted; otherwise share*(v1+v2) == v1*100, so it is 0 when side 1 has no votes and 100 when side 2 has none |
| BattleCard.ProgressComplement | frontend/src/components/BattleCard.tsx:64-67 | the two sides' shares add up to 100 once somebody voted |
| BattleCard.ProgressMonotone | frontend/src/components/BattleCard.tsx:64-67 | a vote for side 1 never lowers its share, and a vote for side 2 never raises it |
| BattleCard.ShareBounds | frontend/src/components/BattleCard.tsx:64-67 | part*100/total lies in [0, 100] when part <= total |
| BattleCard.ProgressLabel | frontend/src/components/BattleCard.tsx:144-146 | the label's two numbers add up to 100, and the second is the other side's share |
| BattleCard.FormatTime | frontend/src/components/BattleCard.tsx:81 | the text is at least two digits and reads back as n; it is exactly two digits below 100 |
| BattleCard.TimerText | frontend/src/components/BattleCard.tsx:96-97 | the timer is the ':'-separated fields hh, mm, ss when hours > 0, and mm, ss otherwise, each padded by formatTime |
| BattleCard.CardHeader | frontend/src/components/BattleCard.tsx:92-104 | a timer exactly while time remains, showing TimerText of the countdown's hours, minutes and seconds; otherwise the badge "Settled" (secondary) exactly for a settled battle and "Ready to Settle" (destructive) exactly for an unsettled one |
| BattleCard.TimerClock | frontend/src/components/BattleCard.tsx:96-97 | the timer reads back as hours:minutes:seconds when hours > 0, and as minutes:seconds otherwise; those fields make up hours*3600 + minutes*60 + seconds |
| BattleCard.TimerTextValue | frontend/src/components/BattleCard.tsx:92-97 | the timer reads back as the time left modulo one day: whole days are not shown |
| BattleCard.WithinDay | frontend/src/hooks/useCountdown.ts:22-24 | hours*3600 + minutes*60 + seconds is the total modulo 86400 |
| BattleCard.TimerIgnoresDays | frontend/src/components/BattleCard.tsx:96-97 | two countdowns a whole number of days apart show the same timer text |
| BattleCard.CardActions | frontend/src/components/BattleCard.tsx:182-276 | vote buttons are shown exactly for an unsettled battle with time left; the settle button exactly when canSettle; each button is disabled exactly while this battle's own request is in flight; the winner line exactly for a settled battle with a non-empty winner |
| BattleCard.ActionsPartition | frontend/src/components/BattleCard.tsx:182-252 | read at one instant, an unsettled battle offers exactly one of voting and settling, and a settled one offers neither |
| Battles.TimeLeftText | frontend/src/pages/Battles.tsx:81-88 | "Ended" exactly when endTime - now <= 0; otherwise a clock text that reads back as the minutes (endTime-now) / 60 and the seconds (endTime-now) % 60 |
| Battles.TimeLeftFields | frontend/src/pages/Battles.tsx:85-87 | while time remains, the text is two ':'-separated fields: the unpadded minutes and the seconds padded to exactly two digits |
| Battles.TimeLeftReadBack | frontend/src/pages/Battles.tsx:85-87 | while time remains, the text has two fields, the seconds are below 60, and the fields make up exactly endTime - now |
| Battles.TimeLeftMatchesCountdown | frontend/src/pages/Battles.tsx:81-88 | the page's minutes are the countdown's days*1440 + hours*60 + minutes, and its seconds are the countdown's seconds |
| Battles.InlineProgress | frontend/src/pages/Battles.tsx:217-222 | `x/(x+y)*100 \|\| 50`: 50 when side 1 has no votes (NaN and 0 are both falsy); otherwise p*(v1+v2) == v1*100 |
| Battles.InlineProgressDiffers | frontend/src/pages/Battles.tsx:217-222 | the inline bar differs from the card's share exactly when side 1 has no votes and side 2 has some |
| Battles.BattlesPage.constructor | frontend/src/pages/Battles.tsx:12-15 | both selections are empty, nothing is in flight, and no write or toast has happened |
| Battles.BattlesPage.CreateDisabled | frontend/src/pages/Battles.tsx:165 | the create button is disabled exactly while a creation is in flight or a selection is missing |
| Battles.BattlesPage.VoteDisabled | frontend/src/pages/Battles.tsx:230-242 | a battle's vote buttons are disabled exactly when the page's `isVoting` marker holds that battle's id, so at most one battle's buttons are disabled |
| Battles.BattlesPage.SelectToken1 | frontend/src/pages/Battles.tsx:12 | sets the first selection and nothing else |
| Battles.BattlesPage.SelectToken2 | frontend/src/pages/Battles.tsx:13 | sets the second selection and nothing else |
| Battles.BattlesPage.BeginCreateBattle | frontend/src/pages/Battles.tsx:33-47 | with a selection missing: an error toast only, with no write and no busy flag; otherwise the form is busy, the create button is disabled, and createBattle(token1, token2) is written with the 0.0002 BNB fee |
| Battles.BattlesPage.FinishCreateBattle | frontend/src/pages/Battles.tsx:48-56 | the form is never left busy; on success the selections are cleared (leaving the button disabled) and a success toast is shown; on failure the selections are kept and an error toast is shown |
| Battles.BattlesPage.BeginVote | frontend/src/pages/Battles.tsx:59-67 | marks the battle as being voted on, which disables its buttons, and writes the vote |
| Battles.BattlesPage.FinishVote | frontend/src/pages/Battles.tsx:68-74 | clears the marker on both paths, so no battle's buttons are disabled, and adds "Vote submitted!" or "Failed to vote" |
| Battles.OverlappingVotes | frontend/src/pages/Battles.tsx:59-75 | votes on two battles in flight: once the first finishes, the second battle's buttons are enabled although its vote is still outstanding |
| Battles.VoteTracker.BeginVote | frontend/src/pages/Battles.tsx:60 | marks only this battle as in flight |
| Battles.VoteTracker.FinishVote | frontend/src/pages/Battles.tsx:73 | clears only this battle's marker; every other battle's state is unchanged |
| Battles.OverlappingVotesTracked | frontend/src/pages/Battles.tsx:59-75 | with per-battle markers, the second battle stays disabled until its own vote finishes |
| LeaderboardCard.WinRate | frontend/src/components/leaderboard/LeaderboardCard.tsx:41-45 | "0%" exactly when there were no battles; otherwise a percentage p with p*battles == wins*100 |
| LeaderboardCard.WinRateBounds | frontend/src/components/leaderboard/LeaderboardCard.tsx:41-45 | with wins <= battles the rate lies in [0, 100] |
| LeaderboardCard.AverageVotes | frontend/src/components/leaderboard/LeaderboardCard.tsx:74-76 | "0" exactly when there were no battles; otherwise a value a with a*battles == votes |
| LeaderboardCard.AverageOfMultiple | frontend/src/components/leaderboard/LeaderboardCard.tsx:74-76 | votes that are k times the battles average to exactly k |
| LeaderboardCard.GetRankIcon | frontend/src/components/leaderboard/LeaderboardCard.tsx:47-58 | Crown, SilverMedal and BronzeMedal for ranks 0, 1 and 2, and a star for every rank from 3 on |
| LeaderboardCard.GetRankBadge | frontend/src/components/leaderboard/LeaderboardCard.tsx:60-71 | "Champion", "Runner-up" and "Third Place" for ranks 0, 1 and 2; from rank 3 on, "Rank #" followed by rank+1 |
| LeaderboardCard.RankBadgeKind | frontend/src/components/leaderboard/LeaderboardCard.tsx:60-71 | a badge starts with "Rank #" exactly when rank >= 3 |
| LeaderboardCard.RankBadgeInjective | frontend/src/components/leaderboard/LeaderboardCard.tsx:60-71 | different ranks get different badges |
| LeaderboardCard.IconMatchesBadge | frontend/src/components/leaderboard/LeaderboardCard.tsx:47-71 | a star icon exactly for the "Rank #" badges |
| LeaderboardCard.StageLabel | frontend/src/components/leaderboard/LeaderboardCard.tsx:199 | "Graduated" exactly for stage 2, and "In Progress" otherwise |
| Leaderboard.ErrorMessage | frontend/src/pages/Leaderboard.tsx:51 | never empty; the token read's message when it is non-empty; always one of the two messages or the default text |
| Leaderboard.BoardMessageFallback | frontend/src/pages/Leaderboard.tsx:51 | the leaderboard's message is shown when the token read has none |
| Leaderboard.Cards | frontend/src/pages/Leaderboard.tsx:90-101 | one card per address, in order, with rank = index; a card's token data, when present, belongs to its address |
| Leaderboard.AlignedStats | frontend/src/pages/Leaderboard.tsx:96-100 | with aligned arrays, card i carries exactly wins[i], battles[i] and votes[i] |
| Leaderboard.CardTokenData | frontend/src/pages/Leaderboard.tsx:94 | a card has token data exactly when some token has its address, and it is the first such token |
| Leaderboard.DistinctBadges | frontend/src/pages/Leaderboard.tsx:95 | no two cards show the same rank badge |
| Leaderboard.LeaderboardView | frontend/src/pages/Leaderboard.tsx:35-102 | Loading exactly when either read is loading; Failed exactly when neither is loading and either failed, with ErrorMessage; Empty exactly when there is no error and no non-empty address list; otherwise the non-empty card list |
| Leaderboard.ViewPrecedence | frontend/src/pages/Leaderboard.tsx:35-74 | loading hides everything, and an error hides the empty state and the list |
| Leaderboard.PageAsWritten | frontend/src/pages/Leaderboard.tsx:32 | with `leaderboard` taken from `useLeaderboard(10)`'s result, which has no such field, the page never shows the card list, and once both reads have loaded without error it shows the empty state |
| Leaderboard.PageAsWrittenHidesStandings | frontend/src/pages/Leaderboard.tsx:32-62 | loaded standings with one address give a ranked list under the intended wiring and the empty state under the page as wired |
| Trades.Windows | frontend/src/components/coin/Trades.tsx:74-84 | the first window starts at the start block and the last ends at the latest block; there is at most one window exactly when start + size passes the latest block |
| Trades.WindowsEmpty | frontend/src/components/coin/Trades.tsx:74-78 | no window is requested exactly when the latest block precedes the start |
| Trades.WindowShape | frontend/src/components/coin/Trades.tsx:74-84 | window i starts at start + i*size, ends at min(from + size - 1, latest), and is non-empty and at most size blocks long |
| Trades.Contiguous | frontend/src/components/coin/Trades.tsx:78-84 | each window begins right after the previous one ends |
| Trades.Disjoint | frontend/src/components/coin/Trades.tsx:74-84 | windows are ordered and pairwise disjoint |
| Trades.Cover | frontend/src/components/coin/Trades.tsx:74-84 | a block lies in some window exactly when it is between the start and the latest block |
| Trades.Collect | frontend/src/components/coin/Trades.tsx:87-97 | a successful scan had every window's call succeed, and its logs begin with the first window's logs |
| Trades.Attempted | frontend/src/components/coin/Trades.tsx:87-97 | the requested windows are a prefix of the windows, non-empty when there is any window |
| Trades.AttemptedStopsAtFirst | frontend/src/components/coin/Trades.tsx:87-97 | every requested window before the last one had its call succeed, so the scan stops at the first window whose call throws |
| Trades.CollectAttemptsAll | frontend/src/components/coin/Trades.tsx:87-97 | a scan that succeeds has requested every window, in order |
| Trades.CollectFails | frontend/src/components/coin/Trades.tsx:70-112 | a scan fails exactly when some window's call throws, and it stops at that window |
| Trades.FetchTradeLogs | frontend/src/components/coin/Trades.tsx:69-112 | with no client, no request and an empty log list; when `getBlockNumber` throws, no request and no logs (the catch at lines 110-112); otherwise the logs are every window's logs in window order (None when a call throws), and the requests are the windows up to the failing one |
| Trades.ScanWindows | frontend/src/components/coin/Trades.tsx:74-98 | the batching loop's logs are Collect of the windows and its requests are Attempted of the windows |
| Trades.Swap | frontend/src/components/coin/Trades.tsx:177-180 | exchanges the two elements and leaves the rest of the array alone, so the multiset of elements is kept |
| Trades.MergeAndShuffle | frontend/src/components/coin/Trades.tsx:170-186 | the shuffled trades are a permutation of the sells followed by the buys |
| Trades.TradeRow | frontend/src/components/coin/Trades.tsx:203-211 | "buy" exactly when a non-empty buyer is present; the account is the shortened buyer, or else the shortened seller; it is empty exactly when both are empty |
| TokenHolders.StoreGet | frontend/src/hooks/useTokenHolder.tsx:37-41 | after a record write, that address reads the new value and every other address reads as before |
| TokenHolders.StoreTotal | frontend/src/hooks/useTokenHolder.tsx:37-41 | a record write moves the total by the change in that address's balance |
| TokenHolders.StoreDistinct | frontend/src/hooks/useTokenHolder.tsx:37-41 | a record write keeps one entry per address |
| TokenHolders.StoreHas | frontend/src/hooks/useTokenHolder.tsx:37-41 | after a write the record lists that address and exactly what it listed before |
| TokenHolders.DebitGet | frontend/src/hooks/useTokenHolder.tsx:36-38 | a debit lowers the sender's balance by the value, starting from 0 when absent, and touches no one else |
| TokenHolders.CreditGet | frontend/src/hooks/useTokenHolder.tsx:41 | a credit raises the recipient's balance by the value, starting from 0 when absent, and touches no one else |
| TokenHolders.ApplyLog | frontend/src/hooks/useTokenHolder.tsx:28-42 | a log without args leaves the record as it was; after a transfer the record lists the recipient, and the sender unless it is the zero address; it gains at most two entries |
| TokenHolders.Fold | frontend/src/hooks/useTokenHolder.tsx:21-43 | logs that all lack args leave the record as it was; the record never loses entries and gains at most two per log |
| TokenHolders.ApplyTransfer | frontend/src/hooks/useTokenHolder.tsx:28-42 | a transfer changes each balance by what it receives minus what it sends; the zero address is never debited; addresses the log does not mention are untouched |
| TokenHolders.MintCreditsOnlyRecipient | frontend/src/hooks/useTokenHolder.tsx:36 | a mint (from the zero address) changes only the recipient's balance, raising it by the value |
| TokenHolders.TransferTotal | frontend/src/hooks/useTokenHolder.tsx:36-41 | a transfer keeps the sum of balances, and a mint raises it by the value |
| TokenHolders.FoldTotal | frontend/src/hooks/useTokenHolder.tsx:21-43 | over any run of logs, the sum of balances grows by exactly the minted value |
| TokenHolders.ApplyDistinct | frontend/src/hooks/useTokenHolder.tsx:28-42 | applying a log keeps one entry per address |
| TokenHolders.Holders | frontend/src/hooks/useTokenHolder.tsx:55-56 | never more holders than entries, and every holder's balance is positive |
| TokenHolders.HoldersExact | frontend/src/hooks/useTokenHolder.tsx:55-60 | an address is listed exactly when its balance is positive, and it is listed with that balance |
| TokenHolders.TokenHolderLedger.constructor | frontend/src/hooks/useTokenHolder.tsx:16 | the record starts empty |
| TokenHolders.TokenHolderLedger.Apply | frontend/src/hooks/useTokenHolder.tsx:28-42 | the record after one log is ApplyLog of the record before |
| TokenHolders.TokenHolderLedger.OnLogs | frontend/src/hooks/useTokenHolder.tsx:19-44 | the record after a batch is the fold of the logs over the old record; it keeps one entry per address; its total grows by exactly the minted value |
| TokenHolders.TokenHolderLedger.HolderList | frontend/src/hooks/useTokenHolder.tsx:55-60 | the listed addresses are exactly those with a positive balance, each listed with its balance |
| Typewriter.Next | frontend/src/components/ui/TypewriterText.tsx:21-49 | one effect run keeps the text index in range |
| Typewriter.NextInv | frontend/src/components/ui/TypewriterText.tsx:24-49 | every run keeps the invariant: the display is a prefix of the current text, and while paused it is the whole text and typing is on |
| Typewriter.TypingGrows | frontend/src/components/ui/TypewriterText.tsx:33-36 | typing appends exactly the next character of the current text |
| Typewriter.FullPauses | frontend/src/components/ui/TypewriterText.tsx:24-38 | a fully typed text pauses, and leaving the pause turns off both pausing and typing, leaving the display and index alone |
| Typewriter.DeletingShrinks | frontend/src/components/ui/TypewriterText.tsx:41-44 | deleting drops exactly the last character |
| Typewriter.EmptyAdvances | frontend/src/components/ui/TypewriterText.tsx:45-47 | with everything deleted, typing restarts on text (index + 1) mod the number of texts |
| Typewriter.TypeUp | frontend/src/components/ui/TypewriterText.tsx:33-36 | k runs from the empty display show the first k characters |
| Typewriter.DeleteDown | frontend/src/components/ui/TypewriterText.tsx:41-44 | k deleting runs from the full text leave all but its last k characters |
| Typewriter.Cycle | frontend/src/components/ui/TypewriterText.tsx:21-49 | 2 * length(text) + 3 runs take the empty display on text i to the empty display on the next text, wrapping round |
| Typewriter.TypewriterText.constructor | frontend/src/components/ui/TypewriterText.tsx:16-19 | starts at "", index 0, typing, not paused, and satisfies the invariant |
| Typewriter.TypewriterText.Step | frontend/src/components/ui/TypewriterText.tsx:21-49 | the new state is Next of the old one, and the invariant is kept |
| RefreshStore.GlobalStore.constructor | frontend/src/store.ts:10 | refresh starts false |
| RefreshStore.GlobalStore.ToggleRefresh | frontend/src/store.ts:11 | refresh is negated |
| RefreshStore.GlobalStore.SetRefresh | frontend/src/store.ts:12 | refresh takes the given value, whatever it was before |
| RefreshStore.ToggleTwice | frontend/src/store.ts:11 | two toggles restore the original value |
| RefreshStore.SetTwice | frontend/src/store.ts:12 | setting the same value twice gives the same state as setting it once |

## Left out

- Contract reads, wallet writes, event watching (`useReadContract`, `useWriteContract`, `getLogs`, `useWatchContractEvent`) and event decoding: their results are inputs to the model. A log arrives decoded, with `args` possibly missing, and a write's outcome is a `succeeded` flag.
- How wagmi's `writeContract` resolves is not modelled. In Battles.tsx the handlers `await` it, and the model takes that await as a real suspension point between a Begin and a Finish step.
- Timers (`setInterval`, `setTimeout`), `Date.now()` and `Math.random`: `now` is a parameter, a timer firing is a step call, and the shuffle's index is any value in `0..i`.
- Floating-point rendering (`toFixed(1)`, `formatEther`, `Number(balance) / 10 ** 18`) is out of scope. Progress, win rate and average votes are exact reals, and balances are unbounded integers (the source uses `bigint`).
- `Number(endTime - now)` in useCountdown.ts:14 and the number-typed `endTime` in Battles.tsx:81 are modelled as unbounded integers. Precision loss above 2^53 is not modelled.
- Misaligned leaderboard arrays: the page reads `undefined` for a missing statistic, and the model shows it as None.
- TokenHolders: the hook's misuse of hooks (it calls `useWatchContractEvent` inside an async function) and `console.log(lo)` in useTokenHolder.tsx:20, which throws a ReferenceError before any log is applied, are not modelled. The model applies the logs as the loop after that line intends.
- JsString.Slice, JsString.SliceFrom, JsString.PadStart, Typewriter.Next, Typewriter.Cycle: JavaScript strings count UTF-16 code units, while a Dafny `string` counts Unicode scalar values. On a text outside the Basic Multilingual Plane (an emoji, say), `slice(0, n + 1)` in TypewriterText.tsx:35 can show half of a surrogate pair, and a cycle then takes more runs than Typewriter.Cycle's 2 * length + 3. Addresses, numerals and clock texts are ASCII, where the two counts agree.
- Typewriter.Next: requires a non-empty `texts` and an index in range. With an empty list the component reads `.length` of `undefined` and throws. A change of the `texts` prop while the banner runs is not modelled.
- Leaderboard.LeaderboardView binds the page's `leaderboard` to the standings the leaderboard read returns, which is the evident intent. The page as wired reads a field the hook's result does not have; Leaderboard.PageAsWritten models that, and the table under "## Findings" records it.
- Battles.tsx:77-79 carries its own `formatAddress`, identical to the one in lib/utils.ts. Both are AddressFormat.FormatAddress.
- The battles page's loading spinner (Battles.tsx:90-96) and the lists' markup are not modelled.

## Findings

| source | as written | input that shows it | evidently intended | confidence | as-written member | corrected member |
|---|---|---|---|---|---|---|
| frontend/src/pages/Battles.tsx:217-222 | `x / (x + y) * 100 \|\| 50` shows 50 whenever the result is falsy: NaN for no votes, but also 0 | token1Votes = 0, token2Votes = 5: the bar stands at 50 although side 2 has every vote, while the battle card shows 0 | 50 only when nobody voted, as `calculateProgressValue` in BattleCard.tsx:56-72 does | high, not executed | Battles.InlineProgressDiffers | BattleCard.ProgressValue |
| frontend/src/pages/Battles.tsx:59-75 | one `isVoting` slot for the whole page: each vote's `finally` sets it to null | vote on battle 1, then on battle 2 before the first write settles; when battle 1's write settles, battle 2's buttons are enabled while its vote is still in flight | a per-battle marker, so a battle's buttons stay disabled until its own vote settles | low (only if the write's await actually suspends), not executed | Battles.OverlappingVotes | Battles.OverlappingVotesTracked |
| frontend/src/pages/Leaderboard.tsx:32 | `const { leaderboard, ... } = useLeaderboard(10)`, but `useLeaderboard` (frontend/src/hooks/useBattles.ts:52-58) returns the read hook's result, whose standings are under `data`; `leaderboard` is undefined | both reads loaded without error, and the leaderboard read returned one address: the page shows "No battles have been completed yet" instead of a ranked card | the card list of the returned standings, as Leaderboard.tsx:90-101 renders | high, not executed | Leaderboard.PageAsWrittenHidesStandings | Leaderboard.LeaderboardView |
