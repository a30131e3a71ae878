# Dice game simulation, modelled in Dafny

`dice_simulation.py` estimates the chance of winning a dice game played with
two six-faced dice. The shooter wins at once on 7 or 11 and loses at once on
2, 3 or 12. Any other sum becomes the point. The shooter then rolls again
until a 7 (lost) or the point (won). The program does its work in five steps,
and this project models each of them:

1. **Enumerator** (`Enumerator`). An odometer runs over one counter per die.
   At each step it sorts the counters and records the sorted list when it is
   new. It also counts that list under the sum of its faces. The model proves
   three things about it:
   - it terminates;
   - it records every ascending combination exactly once, and nothing else;
   - its counts agree with an independent reference enumeration
     (`Combinations.AllCombinations`).
2. **Probability tables** (`Probabilities`). Each sum gets a probability: its
   count over the number of unique combinations. Running totals of these
   probabilities form the cumulative table. The model proves:
   - the probabilities are positive and add up to one;
   - the running totals rise strictly and end at one;
   - the running total for a sum is the share of combinations whose sum is at
     most that sum.
3. **Interval dictionary** (`Intervals`). Each sum owns the half-open range of
   draws between the running total before it and its own. A Python `dict` keeps
   insertion order and overwrites a key it already holds, so the dictionary is
   a list with an overwrite-or-append `Put`. The model proves:
   - the ranges tile `[0, 1)`;
   - a lookup answers the first range that holds the draw;
   - a draw in `[0, 1)` gives exactly the sum whose range holds it.
4. **The game** (`Craps`). One play is resolved from a list of draws.
5. **The tally** (`Craps`). The won and lost plays are counted, and the shares
   of each are computed.

Each loop of the source is a `method` with invariants. Each method is proved
equal to a pure function (`Frequency`, `ProbTable`, `Cumulate`,
`IntervalDict`, `Lookup`, `Game`, `Count`). The properties are lemmas about
those functions.

**What the code computes.** The code works with unordered combinations, not
with the 36 equally likely ordered rolls of a pair of dice. With two
six-faced dice there are 21 combinations, and 3 of them add up to 7:
(1, 6), (2, 5) and (3, 4). So the program gives the sum 7 a probability of
3 / 21 = 1 / 7, where the dice themselves give it 6 / 36. The model follows
the code. `Combinations.TwoSixFacedDice` and `Probabilities.SevenOfTwoDice`
prove these numbers.

Files:
- `wrappers.dfy`: `Option`. It models Python's `None` where a lookup finds
  nothing.
- `combinations.dfy`: combinations, sorting, the reference enumeration and the
  counts.
- `enumerator.dfy`: the odometer enumerator.
- `probabilities.dfy`: the probability and cumulative tables.
- `intervals.dfy`: the interval dictionary and the dice roll.
- `craps.dfy`: the game, the tally, and the shares of won and lost plays.

## Model

| member | source | states |
|---|---|---|
| Combinations.Sort | dice_simulation.py:54 | The sorted list has the length and the multiset of elements of the input, and it is ascending. |
| Combinations.SortRoll | dice_simulation.py:54 | Sorting one face per die gives an ascending combination of the same dice and faces. |
| Combinations.SortAscending | dice_simulation.py:54-56 | Sorting a list that is already ascending returns it unchanged. So a combination is found again under its own sorted form. |
| Combinations.SumBounds | dice_simulation.py:38-39 | Every roll has a sum between the lowest sum `dice` and the highest sum `dice * faces`. |
| Combinations.AllCombinationsSound | dice_simulation.py:47-59 | Every list of the reference enumeration is an ascending list of `dice` faces in range. |
| Combinations.AllCombinationsComplete | dice_simulation.py:47-59 | Every ascending list of `dice` faces in range is in the reference enumeration. |
| Combinations.AllCombinationsDistinct | dice_simulation.py:56-59 | The reference enumeration lists no combination twice. |
| Combinations.FrequencyPositive | dice_simulation.py:38-42 | Every sum from `dice` to `dice * faces` is the sum of at least one combination. |
| Combinations.NumCombinationsPositive | dice_simulation.py:95 | There is at least one combination, so the divisor of the probabilities is never zero. |
| Combinations.FrequenciesTotal | dice_simulation.py:41-61 | The counts of all sums from `dice` to `dice * faces` add up to the number of combinations. |
| Combinations.TwoDiceCount | dice_simulation.py:23-74 | Two dice with `m` faces have `m * (m + 1) / 2` ascending combinations. |
| Combinations.TwoSixFacedDice | dice_simulation.py:263 | Two six-faced dice have 21 combinations, and 3 of them add up to 7. |
| Enumerator.NoOccurrences | dice_simulation.py:36-42 | The new dictionary has exactly the keys `dice` to `dice * faces`, each mapped to 0. |
| Enumerator.RecordSorted | dice_simulation.py:53-61 | The sorted counters are appended exactly when they are not yet recorded. The list stays a list of distinct combinations, and every count stays the number of recorded combinations with that sum. |
| Enumerator.StepPending | dice_simulation.py:63-72 | One odometer step keeps the counters a roll. It moves the next unvisited reading up by one when the cursor is on the last die, and keeps it after a carry. This gives termination and coverage. |
| Enumerator.RankInjective | dice_simulation.py:63-72 | Two rolls with the same odometer reading are the same roll, so no reading stands for two rolls. |
| Enumerator.AllRecorded | dice_simulation.py:51-72 | Once every reading has been visited, every combination has been recorded. |
| Enumerator.MatchesReference | dice_simulation.py:47-61 | A repetition-free list of all combinations has the reference enumeration's length and the reference count for every sum. |
| Enumerator.UniqueCombinations | dice_simulation.py:23-74 | The result lists every ascending combination exactly once and nothing else, and is empty for zero dice. The dictionary has exactly the keys `dice` to `dice * faces`. Each key maps to the number of combinations with that sum, which equals the reference count. The counts add up to the number of combinations. |
| Probabilities.SumProbabilities | dice_simulation.py:76-98 | The list equals the reference table: for each sum from `dice` to `dice * faces` in ascending order, the count of that sum over the number of combinations. |
| Probabilities.ProbTableSums | dice_simulation.py:94-96 | The table has one entry per sum from `dice` to `dice * faces`, in ascending order. |
| Probabilities.ProbTablePositive | dice_simulation.py:95 | Every probability is positive. |
| Probabilities.ProbTableShares | dice_simulation.py:95 | Entry `k` is the share of combinations whose sum is `dice + k`. |
| Probabilities.TotalIsOne | dice_simulation.py:94-98 | The probabilities of all sums add up to one. |
| Probabilities.CumulativeProbabilities | dice_simulation.py:112-138 | Entry `i` of the result is the sum of entry `i` of the probability table, paired with the total of the first `i + 1` probabilities. |
| Probabilities.CumulateStep | dice_simulation.py:127-136 | Each running total keeps its sum. The first running total is the first probability. Each later one is the one before plus its own probability. |
| Probabilities.CumulativeShare | dice_simulation.py:112-138 | The running total of sum `s` is the share of combinations whose sum is at most `s`. |
| Probabilities.AtMostEnds | dice_simulation.py:38-39 | No combination has a sum below `dice`, and all of them have a sum of at most `dice * faces`. |
| Probabilities.CumulativeTable | dice_simulation.py:112-138 | The cumulative table has one entry per sum, in ascending order. Its running totals are positive from the first, rise strictly, and end at one. |
| Probabilities.SevenOfTwoDice | dice_simulation.py:263 | With two six-faced dice there are 11 sums, and sum 7 gets probability 1 / 7. |
| Intervals.KeyIndex | dice_simulation.py:163 | A found position holds an entry with the same key. When nothing is found, no entry has that key. |
| Intervals.Put | dice_simulation.py:163 | After a dictionary assignment the entry is present. The length grows by one exactly when the key is new. Entries with other keys are unchanged. |
| Intervals.PutAllDistinct | dice_simulation.py:158-163 | Putting entries with distinct keys into an empty dictionary keeps all of them, in insertion order. |
| Intervals.FormatProbabilities | dice_simulation.py:140-171 | The dictionary is the one built by putting, for each entry in order, the key (previous running total, or 0 for the first; own running total) mapped to its sum. |
| Intervals.IntervalDictIsBounds | dice_simulation.py:158-166 | With strictly rising totals no key repeats, so the dictionary holds one entry per sum. |
| Intervals.IntervalDictShape | dice_simulation.py:151-166 | With strictly rising totals the first range starts at 0. Each later range starts where the one before ends. Each range ends at its running total and maps to its sum. |
| Intervals.TileDisjoint | dice_simulation.py:158-166 | A draw inside one range is inside no other range. |
| Intervals.TileCover | dice_simulation.py:158-166 | Some range holds a draw exactly when the draw lies in `[0, last total)`. |
| Intervals.RollDice | dice_simulation.py:173-188 | The scan returns the sum of the first entry whose range holds the draw, or `None` when no range does. |
| Intervals.LookupFirst | dice_simulation.py:185-188 | When entry `i` is the first whose range holds the draw, the lookup answers entry `i`'s sum. |
| Intervals.LookupNone | dice_simulation.py:185-188 | The lookup finds nothing exactly when no range holds the draw. |
| Intervals.LookupSound | dice_simulation.py:185-188 | A sum the lookup answers belongs to an entry whose range holds the draw. |
| Intervals.BoundsLookup | dice_simulation.py:185-188 | With strictly rising totals, a draw in the range of entry `i` gives entry `i`'s sum. |
| Intervals.BoundsRoll | dice_simulation.py:185-188 | With strictly rising totals for the sums `low`, `low + 1`, …, a draw gives sum `s` exactly when `s` is one of them and the draw lies in the range of `s`. |
| Intervals.DiceTableIsBounds | dice_simulation.py:263-266 | The dice's running totals rise strictly, so their dictionary holds one range per sum. |
| Intervals.DiceRange | dice_simulation.py:158-166 | The range of sum `s` runs from the share of combinations with a sum below `s` to the share with a sum at most `s`. |
| Intervals.DiceRoll | dice_simulation.py:173-188 | A draw gives sum `s` exactly when `s` lies between `dice` and `dice * faces` and the draw is at least the share of combinations with a smaller sum and below the share with a sum at most `s`. |
| Intervals.DiceRollDefined | dice_simulation.py:181-188 | A draw yields a sum exactly when it lies in `[0, 1)`, the range of `random.random()`, and that sum is between `dice` and `dice * faces`. |
| Craps.Play | dice_simulation.py:190-213 | The outcome of the play is the game's outcome for the rolls its draws give. |
| Craps.PointPhaseAt | dice_simulation.py:206-213 | After rolls that are neither 7 nor the point, the first 7 loses and the first point wins. |
| Craps.PointPhaseUndecided | dice_simulation.py:206-213 | Rolling for the point stays undecided exactly when no roll is a 7 or the point. |
| Craps.FirstDecisive | dice_simulation.py:206-213 | When some roll is a 7 or the point, there is a first such roll. |
| Craps.PointPhaseWon | dice_simulation.py:212-213 | The point is made exactly when some roll equals the point, is not 7, and every roll before it is neither 7 nor the point. |
| Craps.PointPhaseLost | dice_simulation.py:210-211 | The point is lost exactly when some roll is 7 and every roll before it is neither 7 nor the point. |
| Craps.PointPhaseStable | dice_simulation.py:206-213 | A decided point phase ignores any later rolls. |
| Craps.GameStable | dice_simulation.py:196-213 | A decided play ignores any later draws. |
| Craps.DiceRolls | dice_simulation.py:196-208 | With the dictionary of two six-faced dice, every draw in `[0, 1)` gives a sum from 2 to 12. |
| Craps.Tally | dice_simulation.py:268-279 | The counts are the numbers of won and of lost plays. Together with the undecided plays they add up to the number of plays. |
| Craps.Simulate | dice_simulation.py:262-279 | With the dictionary of two six-faced dice, the counts are the numbers of won and of lost plays, and with the undecided ones they add up to the number of plays. |
| Craps.CountsAddUp | dice_simulation.py:268-279 | Won, lost and undecided plays add up to all plays. |
| Craps.Rates | dice_simulation.py:281-282 | Both shares lie in `[0, 1]`, and they add up to one when every play was decided. |

## Left out

- Printing is not modelled: the verbose listings, `ver_comb_unicas_y_frec_sumas`, `ver_prob_formateadas` and the final report (dice_simulation.py:100-110, 215-225, 284-288). It is output only.
- Command-line handling is not modelled (dice_simulation.py:233-260). The number of plays becomes the length of the list of plays given to `Simulate`. `"0"` passes `isdigit`, and the `% 1 != 0` test can never succeed on an `int`, so the source does not reject zero plays.
- `random.random()` is not modelled. `RollDice` takes the draw as a parameter, and a play takes its list of draws. `DiceRollDefined` and `DiceRolls` state what happens for draws in `[0, 1)`, the range Python documents.
- IEEE floating point is not modelled. Probabilities are exact reals, so the last running total is exactly 1 and every draw in `[0, 1)` finds a range. With floats the last total can fall short of 1. `Lookup` still models the resulting `None` roll, and `Craps` compares it as Python would: a `None` point is matched by a later `None`.
- Craps.Play: the source rolls in an unbounded `while True` loop. The model reads a finite list of draws and answers `Undecided` when they run out before a decision. `GameStable` shows that extra draws never change a decided play.
- Craps.Tally: `Undecided` plays are counted neither as won nor as lost. In the source a play that never ends never reaches the tally, so every play that does reach it is won or lost.
- Craps.Rates: requires `plays > 0`. With zero plays the source raises `ZeroDivisionError` at dice_simulation.py:281, and the model does not claim the source rejects zero plays.
- Enumerator.UniqueCombinations: requires `faces >= 1` unless `dice == 0`. With `faces == 0` and at least one die, the source raises `KeyError` at dice_simulation.py:61, because no sum key exists.
- Probabilities.SumProbabilities and Probabilities.CumulativeProbabilities: require `dice >= 1` and `faces >= 1`. With zero dice the source divides by `len(combinaciones_unicas) == 0` and raises `ZeroDivisionError`. With zero faces the enumerator raises `KeyError` first.
- Enumerator.RecordSorted: takes the numbers of dice and faces as ghost parameters. They exist only to state its invariant.
- Probabilities.SumProbabilities: visits the keys `dice` to `dice * faces` in ascending order. The dictionary holds its keys in that insertion order (`NoOccurrences`), so this is the order of the source's `for suma in ocurrencias_suma`.
