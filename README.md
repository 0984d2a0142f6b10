# money-fit: a Dafny model of the progress, ranking and update rules

money-fit is a small weight-loss and fundraising challenge tracker. Participants
enter a starting weight and a goal, log the weight they have lost and the money
they contribute, and the home page ranks them by their progress towards the
goal and names a leader. This project models the rules that decide what the
page, the participant cards, the detail modal and the weight-update server
action compute, and proves what those rules promise.

Weights and money are `real` and ids and timestamps are `int`, so display
rounding (`toFixed`), date formatting and floating-point effects are not part
of the model.

Two shared modules, then one module per source file:

- `Participants` (`participants.dfy`): the participant record and the progress
  ratio `weightLost / weightGoal * 100`, which the card, the leader banner and
  the ranking all use.
- `StableSort` (`sorting.dfy`): the stable sort that `Array.prototype.sort`
  performs with a numeric comparator. `SortBy` is its specification, an
  insertion sort on sequences. `InsertionSort` sorts an array in place and is
  proved equal to `SortBy`. Stability is stated as: for every key, the
  elements with that key keep their input order. Together with the ordering,
  this fixes the output completely.
- `Card` (`card.dfy`): `src/components/ParticipantCard.tsx`. The derived
  values (progress, current weight, the "data complete" gate, the clamped bar
  width, the reset-button and goal-label rules) and a `CardState` class for the
  weight input that `handleSubmit` reads and clears.
- `Home` (`home.dfy`): `src/app/page.tsx`. The three optimistic list updates,
  the leader (filter, then a reduce with a strict `>`), the ranking (a stable
  sort of a copy, descending by progress, −1 for an unset goal), the prize
  total, and a `HomeState` class holding the `participants` state that the
  handlers replace.
- `History` (`history.dfy`): `src/components/ParticipantInfoModal.tsx`. The
  chronological sorted copy of the weight history, the difference column and
  its colour and sign, the chart series, the contribution total and the
  empty-state rules.
- `Actions` (`actions.dfy`): `src/app/actions.ts`. `updateParticipantWeight`
  as a method of a `Store` class whose `rows: map<int, Participant>` stands
  for the participant table.

The ranking places participants without a goal (key −1) after every
participant who has a goal and has not gained weight (`UnsetGoalsAfterProgress`).
It does not place them after everyone: a participant whose `weightLost` is
below −1% of the goal has a key below −1 and ranks after them.
`WeightGainRankedAfterUnset` exhibits such a pair.

Three facts about the code that the model keeps as written:

- Progress is `weightLost / weightGoal * 100` when a goal is set and 0
  otherwise (src/components/ParticipantCard.tsx:42). It is not clamped: only
  the bar width is capped at 100, by `Math.min(progress, 100)`
  (src/components/ParticipantCard.tsx:129).
- The leader is chosen only among participants with
  `weightGoal > 0 && weightLost > 0` (src/app/page.tsx:126).
- A reset on the page zeroes `weightLost` and `moneyAdded` of the matching
  participant and keeps every other field (src/app/page.tsx:90-96).

## Model

| member | source | states |
|---|---|---|
| `Participants.Ratio` | src/app/page.tsx:131-136 | the progress ratio times the goal is exactly `weightLost * 100` |
| `Participants.RatioBounds` | src/components/ParticipantCard.tsx:42 | progress is non-negative iff `weightLost` is, at most 100 iff the goal is not exceeded, and 100 exactly at the goal |
| `Participants.RatioMonotone` | src/components/ParticipantCard.tsx:42 | for a fixed goal, more weight lost means at least as much progress, and conversely |
| `Card.Progress` | src/components/ParticipantCard.tsx:42 | with a goal set, progress times goal equals `weightLost * 100`; with no goal, progress is 0, so nothing is divided by zero |
| `Card.CurrentWeight` | src/components/ParticipantCard.tsx:43 | current weight plus weight lost is the initial weight |
| `Card.BarWidth` | src/components/ParticipantCard.tsx:129 | the bar width never exceeds 100 or the progress, and is one of the two |
| `Card.Render` | src/components/ParticipantCard.tsx:42-158 | the card's derived values (lines 42-44) as displayed: the text shows the unclamped progress and the bar width is `Math.min(progress, 100)`: the progress up to 100, exactly 100 above it; the goal shows "-" iff `weightGoal <= 0`; the reset button shows iff `weightLost > 0` or `moneyAdded > 0`; the input, the submit button and the lock notice are disabled or shown exactly when the data-complete gate `initialWeight > 0 && weightGoal > 0` of line 44 fails |
| `Card.CardState.constructor` | src/components/ParticipantCard.tsx:38 | the weight input starts empty |
| `Card.CardState.SetNewWeight` | src/components/ParticipantCard.tsx:144 | the input holds what was typed |
| `Card.CardState.HandleSubmit` | src/components/ParticipantCard.tsx:46-52 | a non-empty input calls `onWeightUpdate(id, parseFloat(input))` once; an empty input calls nothing; the input is empty afterwards |
| `Home.WithWeightLogged` | src/app/page.tsx:42-48 | same length and ids in the same order; each participant with the id has `weightLost` raised by exactly `newWeight` and no other field changed; every other participant is unchanged |
| `Home.WithMoneyAdded` | src/app/page.tsx:66-72 | same length and order; only `moneyAdded` of the matching participants changes, and it rises by `amount` |
| `Home.WithReset` | src/app/page.tsx:90-96 | same length and order; the matching participants have `weightLost = 0` and `moneyAdded = 0`, with `initialWeight`, `weightGoal` and every other field kept; others are unchanged |
| `Home.WeightLogsAdd` | src/app/page.tsx:42-48 | two accepted weight logs equal one log of their sum |
| `Home.ResetForgets` | src/app/page.tsx:90-96 | a reset undoes any earlier weight log or contribution of that participant, and resetting twice is resetting once |
| `Home.PrizeTotal` | src/app/page.tsx:179 | the prize is 0 for an empty list and non-negative when no contribution total is negative |
| `Home.PrizeTotalAppend` | src/app/page.tsx:179 | the prize of two lists put together is the sum of their prizes |
| `Home.PrizeAfterMoney` | src/app/page.tsx:179 | after an accepted contribution the prize grows by `amount` once per participant carrying the id |
| `Home.PrizeAfterMoneyUnique` | src/app/page.tsx:179 | with unique ids, a contribution by a listed participant grows the prize by exactly `amount` |
| `Home.PrizeAfterWeight` | src/app/page.tsx:179 | an accepted weight log leaves the prize unchanged |
| `Home.PrizeAfterReset` | src/app/page.tsx:179 | an accepted reset lowers the prize by what the reset participants had contributed |
| `Home.WithProgress` | src/app/page.tsx:126 | the filter keeps only participants of the list with a goal and some weight lost |
| `Home.WithProgressEmpty` | src/app/page.tsx:126-128 | the filtered list is empty iff no participant has both `weightGoal > 0` and `weightLost > 0` |
| `Home.ReduceLeader` | src/app/page.tsx:130-134 | the reduce returns its start value or one of the participants it scanned |
| `Home.FindLeader` | src/app/page.tsx:126-134 | a leader, when there is one, is a listed participant that passes the filter |
| `Home.LeaderIsFirstMaximum` | src/app/page.tsx:126-134 | there is no leader iff nobody passes the filter; otherwise the leader is at a position whose progress is at least every qualifying participant's and strictly above every qualifying participant listed earlier, so the earliest of equal maxima wins |
| `Home.FirstMaximumUnique` | src/app/page.tsx:130-134 | the tie-break leaves one possible leader position |
| `Home.LeaderProgress` | src/app/page.tsx:136 | the banner percentage exists exactly when there is a leader, is positive, and times the leader's goal equals its `weightLost * 100` |
| `Home.RankKey` | src/app/page.tsx:193-194 | the sort key is the card's progress when a goal is set and −1 otherwise |
| `Home.Ranked` | src/app/page.tsx:191-196 | the ranking has as many entries as the list |
| `Home.RankParticipants` | src/app/page.tsx:191-196 | sorting an array copy of the list in place yields exactly the specified ranking |
| `Home.RankedIsOrderedPermutation` | src/app/page.tsx:191-196 | the ranking is a permutation of the list and its keys never increase |
| `Home.RankedIsStable` | src/app/page.tsx:192-195 | participants with equal keys appear in the ranking in their list order |
| `Home.UnsetGoalsAfterProgress` | src/app/page.tsx:193-195 | a participant without a goal is never ranked before one with a goal and non-negative weight lost |
| `Home.WeightGainRankedAfterUnset` | src/app/page.tsx:193-195 | a participant with goal 10 and −1 kg lost is ranked after one with no goal |
| `Home.WeightLogLowersCurrentWeight` | src/app/page.tsx:42-48 | after an accepted weight log, the card's current weight is lower by the amount logged |
| `Home.MoneyAddedMatchesHistory` | src/app/page.tsx:66-72 | if `moneyAdded` equals the modal's money-history total, it still does after the contribution is applied and appended as a record |
| `Home.ResetClearsCard` | src/app/page.tsx:90-96 | after a reset the card hides the reset button, shows 0 progress and an empty bar, shows the initial weight as current, and keeps its input gate |
| `Home.ResetLeavesLeaderboard` | src/app/page.tsx:126 | a participant just reset is never the leader |
| `Home.HomeState.constructor` | src/app/page.tsx:18 | the participant list starts empty |
| `Home.HomeState.FetchParticipants` | src/app/page.tsx:24-29 | the list becomes what the server returned |
| `Home.HomeState.HandleWeightUpdate` | src/app/page.tsx:31-53 | on an ok response the list becomes `WithWeightLogged` of the old list; otherwise it is unchanged |
| `Home.HomeState.HandleMoneyAdd` | src/app/page.tsx:55-77 | on an ok response the list becomes `WithMoneyAdded` of the old list; otherwise it is unchanged |
| `Home.HomeState.HandleReset` | src/app/page.tsx:79-101 | on an ok response the list becomes `WithReset` of the old list; otherwise it is unchanged |
| `Home.HomeState.RankedCards` | src/app/page.tsx:191-197 | the cards come out as the ranking of the current list, a permutation of it, and the state is not reordered |
| `StableSort.SortBy` | src/app/page.tsx:191-196 | the stable sort keeps the length |
| `StableSort.SortByPermutes` | src/app/page.tsx:191-196 | the sort's output is a permutation of its input |
| `StableSort.SortBySorted` | src/app/page.tsx:191-196 | the sort's output is in non-decreasing key order |
| `StableSort.SortByStable` | src/app/page.tsx:191-196 | for every key, the elements with that key come out in their input order |
| `StableSort.InsertionSort` | src/app/page.tsx:191-196 | the in-place sort leaves the array holding exactly `SortBy` of its old contents |
| `History.SortedHistory` | src/components/ParticipantInfoModal.tsx:136-138 | the sorted copy has one entry per reading |
| `History.SortedHistoryIsChronological` | src/components/ParticipantInfoModal.tsx:136-138 | the sorted history is a permutation of the history, oldest first, and readings with the same time keep their order |
| `History.Differences` | src/components/ParticipantInfoModal.tsx:77-79 | row 0 is `initialWeight − w[0]` and row i > 0 is `w[i−1] − w[i]` |
| `History.DifferencesTelescope` | src/components/ParticipantInfoModal.tsx:77-79 | the first n differences add up to the initial weight minus the n-th reading, so each reading is recovered from the initial weight and the column |
| `History.DifferencesTotal` | src/components/ParticipantInfoModal.tsx:77-79 | all differences add up to the initial weight minus the last reading, and to 0 for an empty history |
| `History.ToneOf` | src/components/ParticipantInfoModal.tsx:92 | a difference is green iff positive, red iff negative and grey iff zero |
| `History.SignPrefix` | src/components/ParticipantInfoModal.tsx:93 | the "+" prefix appears iff the difference is positive |
| `History.WeightRows` | src/components/ParticipantInfoModal.tsx:77-97 | one row per reading, with its time and weight; the difference plus the weight is the previous reading (or the initial weight); a row is green, red or grey exactly when its difference is positive, negative or zero, and carries "+" exactly when it is positive |
| `History.Chart` | src/components/ParticipantInfoModal.tsx:140-151 | labels and data have the sorted history's length, and `data[i]` is reading i's weight |
| `History.TotalContributed` | src/components/ParticipantInfoModal.tsx:279 | the total is 0 for an empty money history and non-negative when no amount is negative |
| `History.TotalContributedAppend` | src/components/ParticipantInfoModal.tsx:279 | the total of two runs of records is the sum of their totals |
| `History.Render` | src/components/ParticipantInfoModal.tsx:229-290 | each tab shows its empty state iff its history is empty; the table and the chart are built from the sorted history; the money tab lists the records as given and always shows their total |
| `History.TableTotalsWeightChange` | src/components/ParticipantInfoModal.tsx:237-242 | the table's difference column adds up to the initial weight minus the latest reading |
| `Actions.AfterWeightUpdate` | src/app/actions.ts:13-18 | the same keys; row `id` has `weightLost` raised by `newWeight` and nothing else changed; every other row is unchanged; rows stay under their own ids |
| `Actions.Store.UpdateParticipantWeight` | src/app/actions.ts:7-22 | an unknown id returns null and leaves the store unchanged; a known id makes the store `AfterWeightUpdate` of the old store and returns the updated row |
| `Actions.OptimisticUpdateAgrees` | src/app/actions.ts:13-18 | compares the page's optimistic weight rule with this action's row update (the page itself sends a PATCH and does not call this action): a client list that mirrors the store still mirrors it once each rule has applied the same log |

## Left out

- `fetch`, `async`/`await` and the HTTP responses are not modelled. Each handler takes the response's `ok` flag as a parameter, and `FetchParticipants` takes the returned list as a parameter.
- The edit handler, which refetches the whole list after a successful edit (src/app/page.tsx:202-211), is only covered by `FetchParticipants`.
- React `useState`, `useEffect` and re-rendering are not modelled. Each state is a class field that the handler methods reassign.
- The PATCH route src/app/api/participants/[id]/route.ts, the list route and prisma/seed.ts are not part of this model. The route's own `newWeight` branch appends a weight record; it does not add to `weightLost` as the page and the server action do.
- The edit, add-money, reset-confirmation and skeleton components are not modelled. Their only logic is `parseFloat` of text input and open/close flags.
- `parseFloat` is a parameter of `HandleSubmit`. Its handling of malformed text (NaN) is not modelled.
- JavaScript floating point, `toFixed` rounding, `Date` parsing and `toLocaleDateString` are not modelled. Chart labels and table dates are the raw integer timestamps.
- The modal's `isOpen` flag and its active tab only choose which pane is on screen, so `History.Render` computes all three panes.
- Chart.js options, `Image`, colours and layout are not modelled, because they are foreign libraries or pure markup.
- Concurrency is not modelled. The read-modify-write race between `findUnique` and `update` in src/app/actions.ts:8-18 is excluded, and each call is taken as one atomic step.
- The card does not re-check the "data complete" gate when the form is submitted. The gate works by disabling the input and the button, which `Card.Render` models; `HandleSubmit` has no extra guard.
