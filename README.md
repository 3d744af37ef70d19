# Fantasy Premier League lineup engine, modelled in Dafny

This project models the lineup engine of a Fantrax Premier League fantasy
team manager. A roster is an ordered list of players. Each player has:

- a position (goalkeeper, defender, midfielder, forward);
- a starter flag;
- a lock flag, set when Fantrax no longer allows lineup changes for that player;
- the set of gameweek statuses read from its icons;
- a fantasy value for the gameweek.

The engine has four parts:

- **The substitution validator.** It counts the current starters per position, toggles the proposed players and checks the caps and minimums in a fixed order. The first broken rule gives the reason. The lineup manager has an older exact-swap variant.
- **The full rebuild** (`optimize_lineup`). It sorts the roster into three status tiers, each by value with the highest first. It resets every unlocked player to reserve. It then walks the sorted list once and promotes every unlocked player that the validator accepts with the minimums relaxed.
- **The targeted substitutions of the lineup manager.** At-risk starters are paired greedily with the best playable reserves, and the pairs are applied one by one.
- **The value calculator.** It takes the mean of the recent points and multiplies it either by a booking-odds coefficient or by a league-standings coefficient.

The player objects whose methods change a field in place are modelled as classes. So are the roster, whose player list the sort, the reset and the walk replace, and the runs of the two managers. The validator, the filters, the sort and the calculator are functions. Every method is proved against these functions. The properties the code promises are proved about the functions as lemmas:

- the sort is a permutation, tier-sorted and stable;
- the walk never touches locked players, keeps the caps and leaves a maximal lineup;
- rebuilding is idempotent;
- each swap keeps the number of starters;
- the coefficients stay in their bounds and are monotone.

The network, the sync with Fantrax, logging and printing are not modelled. Where they feed data into the engine, the data becomes a parameter:
- the rosters the server returns on each refresh;
- the league table;
- the odds records.

The modules are:

- `Wrappers`: Option and Result.
- `Players`: the player record, the status predicates, the position and icon maps, and the status ids.
- `LineupRules`: filters, starter counts and the substitution validator.
- `TieredSort`: the stable value sort and the three-tier order.
- `Optimizer`: the reset, the promotion walk and the rebuild.
- `Rosters`: the roster class and the roster manager's run.
- `ValueCalculator`: the base value and both coefficients.
- `Fixtures`: the odds lookup and the matches of the gameweek.
- `LineupOptimizer`: the service-level optimizer, which revalues the roster before rebuilding it.
- `PlayerObjects`: the player classes.
- `Substitutions`: the exact swap, the greedy pairing, applying the pairs, and the gameweek manager's run.
- `Tuning`: the best lineup a past gameweek allowed, and its points.

## Model

| member | source | states |
|---|---|---|
| Players.IconStatuses | src/fantrax_pl_team_manager/services/fantrax_player.py:38 | definition: the set of status names of the icons whose type id the icon map knows; icons of unknown type are dropped. HasStatus states its membership both ways |
| Players.PositionShortNameOfId | src/fantrax_pl_team_manager/services/fantrax_player.py:47-49 | definition: `POSITION_MAP_BY_ID.get`, none for an unknown id. PositionMapsInverse and PositionRoundTrip state its relation to the short-name map |
| Players.SwappedStatusId | src/fantrax_pl_team_manager/services/fantrax_player.py:84-89 | definition: a starter id "1" becomes the reserve id "2", any other id becomes "1". SwapStatusIdTwice states its effect |
| Players.SwappedStarterFlag | src/fantrax_pl_team_manager/domain/fantasy_roster_player.py:51-56 | definition: a True flag becomes False, a False or unset flag becomes True. SwapStarterFlagTwice states its effect |
| Players.ExpectedOnlyWithoutFlags | src/fantrax_pl_team_manager/domain/fantasy_player.py:92-104 | "Expected to play" without the expected flag holds exactly for the empty status set, and an empty set is neither starting, uncertain nor benched/out |
| Players.PositionMapsInverse | src/fantrax_pl_team_manager/services/fantrax_player.py:6-12 | the short-name map is the inverse of the id map: id→name holds iff name→id holds; the id map is defined exactly on 704/703/702/701, the short-name map exactly on G/D/M/F |
| Players.PositionRoundTrip | src/fantrax_pl_team_manager/services/fantrax_player.py:6-12 | every position's short name maps to an id whose short name is that position again |
| Players.IconMapInjective | src/fantrax_pl_team_manager/services/fantrax_player.py:14-22 | no two type ids of the icon map give the same status name |
| Players.HasStatus | src/fantrax_pl_team_manager/services/fantrax_player.py:38 | a mapped status is among the icon statuses iff an icon with its type id is present; unknown ids contribute nothing |
| Players.IconStatusPredicates | src/fantrax_pl_team_manager/services/fantrax_player.py:51-71 | the four predicates over icon statuses hold iff an icon of the matching type ids is present; "expected" also holds when no known icon is present |
| Players.StatusBonus | src/fantrax_pl_team_manager/services/fantrax_player.py:91-99 | the bonus is in 0..3; it is 3 iff starting, and 0 iff neither starting, expected nor uncertain |
| Players.SwapStatusIdTwice | src/fantrax_pl_team_manager/services/fantrax_player.py:43-45 | swapping negates "status id is 1"; swapping twice restores the id iff it was "1" or "2" |
| Players.SwapStarterFlagTwice | src/fantrax_pl_team_manager/domain/fantasy_roster_player.py:51-56 | a swapped flag is always set, to the negation of "flag is True"; swapping twice restores the flag iff it was set (an unset flag ends as False) |
| LineupRules.Starters | src/fantrax_pl_team_manager/domain/fantasy_roster.py:33-39 | definition: the starters in roster order. StartersReservesPartition states that they and the reserves split the roster |
| LineupRules.AtRisk | src/fantrax_pl_team_manager/domain/fantasy_roster.py:147-157 | definition: the starters flagged benched, out or uncertain, in roster order. AtRiskExactly states its members both ways |
| LineupRules.PlayableReserves | src/fantrax_pl_team_manager/domain/fantasy_roster.py:172-182 | definition: the reserves flagged starting or expected, in roster order, without the locked ones when asked (the lineup-manager copy keeps them). PlayableReservesExactly states its members both ways |
| LineupRules.StarterCounts | src/fantrax_pl_team_manager/domain/fantrax_roster.py:89-96 | definition: the number of starters at each position. StarterCountsByPosition and CountsPermutation state what it counts |
| LineupRules.SwapVerdict | src/fantrax_pl_team_manager/domain/fantrax_roster.py:98-105 | definition: the walk over the proposed players, where the first locked one is refused by name and every other toggles its position count. FirstLockedRejects and ToggleAllAt state both outcomes |
| LineupRules.CheckCounts | src/fantrax_pl_team_manager/services/fantrax_roster_manager.py:199-229 | definition: the caps and the optional minimums in the source's order, with the literal limits and messages of the manager's copy. CheckCountsAccepts and RelaxSkipsOnlyMinimums state when it accepts |
| LineupRules.SubstitutionVerdict | src/fantrax_pl_team_manager/domain/fantrax_roster.py:89-140 | definition: `valid_substitutions`, the walk started from the roster's starter counts. UnlockedSwapVerdict and ToggleIsFlip state it on the flipped roster |
| LineupRules.FilterMembers | src/fantrax_pl_team_manager/domain/fantrax_roster.py:33-48 | an element is in a filtered list iff it is in the list and passes the test |
| LineupRules.FilterCount | src/fantrax_pl_team_manager/domain/fantrax_roster.py:33-48 | filtering keeps every passing element with its multiplicity and drops every other |
| LineupRules.StartersReservesPartition | src/fantrax_pl_team_manager/services/fantrax_roster_manager.py:123-128 | starters and reserves together are the roster as a multiset, starters all start, reserves all do not |
| LineupRules.AtRiskExactly | src/fantrax_pl_team_manager/domain/fantasy_roster.py:147-157 | the at-risk list is the roster filtered by "starter and benched/out or uncertain", in roster order, and holds exactly those players |
| LineupRules.PlayableReservesExactly | src/fantrax_pl_team_manager/domain/fantasy_roster.py:172-182 | the playable reserves are exactly the reserves that are starting or expected, unlocked when the copy skips locked players, in roster order |
| LineupRules.StarterCountsByPosition | src/fantrax_pl_team_manager/domain/fantrax_roster.py:89-96 | the count at a position is the number of starters there, and the counts add up to the number of starters |
| LineupRules.CountsPermutation | src/fantrax_pl_team_manager/domain/fantrax_roster.py:89-96 | the starter counts depend only on the multiset of players |
| LineupRules.CheckCountsAccepts | src/fantrax_pl_team_manager/domain/fantrax_roster.py:107-140 | the checks accept iff the caps hold and, unless relaxed, the minimums hold; no goalkeeper minimum is checked |
| LineupRules.RelaxSkipsOnlyMinimums | src/fantrax_pl_team_manager/domain/fantrax_roster.py:108-138 | relaxing changes the verdict only when a minimum fails and the total is within its cap; a relaxed refusal is also a strict one |
| LineupRules.FirstLockedRejects | src/fantrax_pl_team_manager/domain/fantrax_roster.py:98-100 | the first locked player of the list decides the verdict, with its "disabled from lineup changes" reason, before any count is checked |
| LineupRules.UnlockedSwapVerdict | src/fantrax_pl_team_manager/domain/fantrax_roster.py:89-140 | without locked players the verdict is the checks applied to the counts with every listed player toggled |
| LineupRules.ToggleAllAt | src/fantrax_pl_team_manager/domain/fantrax_roster.py:101-105 | toggling adds one per listed reserve and subtracts one per listed starter at each position |
| LineupRules.ToggleIsFlip | src/fantrax_pl_team_manager/domain/fantrax_roster.py:101-105 | toggling a player's count is the count of the roster with that player's flag flipped |
| LineupRules.ValidSubstitutions | src/fantrax_pl_team_manager/services/fantrax_roster_manager.py:173-231 | the loop that toggles the counts and checks them returns the verdict the specification function gives; it changes no player |
| LineupRules.ShortNameInjective | src/fantrax_pl_team_manager/services/fantrax_player.py:6-12 | two positions have the same short name iff they are the same |
| LineupRules.StartersByShortName | src/fantrax_pl_team_manager/domain/fantasy_roster.py:159-170 | the lookup fails iff the name is not G/D/M/F; otherwise it holds exactly the starters at that position |
| LineupRules.StartersByShortNameCount | src/fantrax_pl_team_manager/services/fantrax_roster_manager.py:245-256 | for a valid position the lookup gives the starters there, as many as the starter count |
| TieredSort.SortByValue | src/fantrax_pl_team_manager/services/fantrax_roster_manager.py:289-291 | definition: a stable insertion sort by value. SortByValueSpec states that it is a permutation, ordered and stable |
| TieredSort.TieredOrder | src/fantrax_pl_team_manager/domain/fantrax_roster.py:186-208 | definition: the three status tiers in order, each sorted by value, highest first. TieredOrderPermutation, TieredOrderSorted and TieredOrderStable state its properties |
| TieredSort.SortByValueSpec | src/fantrax_pl_team_manager/services/fantrax_roster_manager.py:289-291 | the value sort is a permutation, ordered, and keeps the input order of equal values |
| TieredSort.SortByValueFixed | src/fantrax_pl_team_manager/services/fantrax_roster_manager.py:289-291 | a list already in order is left unchanged |
| TieredSort.Tier | src/fantrax_pl_team_manager/domain/fantrax_roster.py:189-198 | every player lands in one of the three tiers |
| TieredSort.TierPrecedence | src/fantrax_pl_team_manager/domain/fantasy_roster.py:194-203 | a player both starting and out is tier 1 when playing is checked first and tier 3 when uncertain is; an unclassified player is tier 3; with at most one kind of flag the two precedences agree |
| TieredSort.TieredOrderPermutation | src/fantrax_pl_team_manager/domain/fantrax_roster.py:186-208 | the tiered order is a permutation of the roster |
| TieredSort.TieredOrderSorted | src/fantrax_pl_team_manager/domain/fantrax_roster.py:186-208 | the tiers come in order 1, 2, 3 and each is in non-increasing value order |
| TieredSort.TieredOrderStable | src/fantrax_pl_team_manager/domain/fantrax_roster.py:199-208 | players with the same tier and value keep their input order |
| TieredSort.TieredOrderFixed | src/fantrax_pl_team_manager/domain/fantrax_roster.py:186-208 | a roster already in tiered order is left unchanged |
| Optimizer.Reset | src/fantrax_pl_team_manager/services/lineup_optimizer.py:34-36 | definition: every unlocked player becomes a reserve. ResetStarters and ResetIdempotent state its effect |
| Optimizer.Step | src/fantrax_pl_team_manager/services/lineup_optimizer.py:41-49 | definition: one turn of the walk, which promotes the player when it is unlocked and the relaxed validator accepts it. StepGrows states what a turn keeps |
| Optimizer.Walk | src/fantrax_pl_team_manager/services/lineup_optimizer.py:40-49 | definition: the turns in roster order, each on the roster as the earlier turns left it. WalkDecision, WalkWithinCaps and WalkMaximal state its outcome |
| Optimizer.Optimized | src/fantrax_pl_team_manager/services/lineup_optimizer.py:28-49 | definition: sort, reset, walk. OptimizedDecision, OptimizedMaximal and OptimizedIdempotent state its outcome |
| Optimizer.ResetStarters | src/fantrax_pl_team_manager/services/lineup_optimizer.py:34-36 | after the reset a player starts iff it is locked and started before; only flags change; locked players are untouched |
| Optimizer.ResetIdempotent | src/fantrax_pl_team_manager/services/lineup_optimizer.py:34-36 | resetting twice is resetting once |
| Optimizer.ResetCountsPermutation | src/fantrax_pl_team_manager/services/lineup_optimizer.py:34-36 | the starter counts after a reset depend only on the multiset of players |
| Optimizer.WalkOnlyPromotes | src/fantrax_pl_team_manager/services/lineup_optimizer.py:40-49 | the walk changes only starter flags, never a locked player, and never demotes |
| Optimizer.WalkDecision | src/fantrax_pl_team_manager/services/lineup_optimizer.py:40-49 | a player starts after the walk iff it started already, or it is unlocked and the relaxed validator accepted it at its turn |
| Optimizer.StepGrows | src/fantrax_pl_team_manager/services/lineup_optimizer.py:44-47 | a promotion step only raises counts and keeps the caps |
| Optimizer.WalkGrows | src/fantrax_pl_team_manager/services/lineup_optimizer.py:40-49 | the counts only grow along the walk, and caps that hold at one point hold later |
| Optimizer.RejectStaysRejected | src/fantrax_pl_team_manager/services/lineup_optimizer.py:44 | a reserve refused at some counts stays refused at any larger counts |
| Optimizer.WalkWithinCaps | src/fantrax_pl_team_manager/services/lineup_optimizer.py:40-49 | a walk started within the caps ends within them |
| Optimizer.WalkMaximal | src/fantrax_pl_team_manager/services/lineup_optimizer.py:40-49 | after the walk no unlocked reserve passes the relaxed validator |
| Optimizer.OptimizedDecision | src/fantrax_pl_team_manager/domain/fantrax_roster.py:218-246 | the rebuild keeps the tiered order and locked players as they were; an unlocked player starts iff the relaxed validator accepted it at its turn |
| Optimizer.OptimizedMaximal | src/fantrax_pl_team_manager/domain/fantrax_roster.py:234-243 | after the rebuild no unlocked reserve could still be promoted |
| Optimizer.OptimizedWithinCaps | src/fantrax_pl_team_manager/domain/fantrax_roster.py:234-243 | if the locked starters alone are within the caps, so is the rebuilt lineup |
| Optimizer.FlagsKeepTierSorted | src/fantrax_pl_team_manager/domain/fantrax_roster.py:186-208 | changing only starter flags keeps a roster in tiered order |
| Optimizer.ResetAfterWalk | src/fantrax_pl_team_manager/domain/fantrax_roster.py:228-243 | resetting a walked roster gives back the reset roster |
| Optimizer.OptimizedIdempotent | src/fantrax_pl_team_manager/domain/fantrax_roster.py:218-246 | rebuilding a rebuilt roster changes nothing |
| Optimizer.MinimumsNotRechecked | src/fantrax_pl_team_manager/services/lineup_optimizer.py:44 | a lone unlocked goalkeeper is promoted, and the result fails the strict defender minimum |
| Rosters.IndexOfId | src/fantrax_pl_team_manager/services/fantrax_roster_manager.py:130-135 | the index found is the first one carrying the id; none is found only when no player carries it |
| Rosters.Roster.GetPlayer | src/fantrax_pl_team_manager/services/fantrax_roster_manager.py:130-135 | returns the first player with the id, else the "Player not found" error |
| Rosters.Roster.SortPlayers | src/fantrax_pl_team_manager/services/fantrax_roster_manager.py:270-296 | the one-pass split and the three sorts replace the list by its tiered order |
| Rosters.Roster.ResetLineup | src/fantrax_pl_team_manager/domain/fantrax_roster.py:228-231 | the loop leaves the reset roster |
| Rosters.Roster.PromoteWalk | src/fantrax_pl_team_manager/domain/fantrax_roster.py:234-243 | the loop leaves the walked roster |
| Rosters.Roster.OptimizeLineup | src/fantrax_pl_team_manager/services/fantrax_roster_manager.py:305-333 | sort, reset and walk leave the rebuilt roster |
| Rosters.Run | src/fantrax_pl_team_manager/services/fantrax_roster_manager.py:35-51 | with run-once exactly one cycle runs; otherwise one per refresh; the roster ends as the rebuild of the last refreshed roster |
| ValueCalculator.Mean | src/fantrax_pl_team_manager/services/fantasy_value_calculator.py:27-31 | definition: the average of the recent points, 0.0 without history. MeanBounds states its bounds |
| ValueCalculator.IsHomeSide | src/fantrax_pl_team_manager/services/fantasy_value_calculator.py:117-128 | definition: the record's home team decides first, then its away team, then the player's own field compared in lower case with "home"; otherwise away. LowerIsHome and OpposingSides state its cases |
| ValueCalculator.OddsCoefficient | src/fantrax_pl_team_manager/services/fantasy_value_calculator.py:114-163 | definition: 1 + k(2p - 1), with p the team's share of the booking prices, and 1.0 without a record, a team price or a non-zero total. OddsCoefficientBounds states its bounds and fallbacks |
| ValueCalculator.GameweekValue | src/fantrax_pl_team_manager/services/fantasy_value_calculator.py:14-44 | definition: the mean times the odds coefficient when a record is given, else times the standings coefficient, whose errors propagate. GameweekValueModes and GameweekValueFields state its cases |
| ValueCalculator.MeanBounds | src/fantrax_pl_team_manager/services/fantasy_value_calculator.py:25-31 | the base value lies between the least and the greatest points, and is 0 without points |
| ValueCalculator.TanhBounds | src/fantrax_pl_team_manager/services/fantasy_value_calculator.py:89 | the stand-in for tanh is odd, strictly between -1 and 1, and positive for positive input |
| ValueCalculator.TanhMonotone | src/fantrax_pl_team_manager/services/fantasy_value_calculator.py:89 | the stand-in for tanh is strictly increasing |
| ValueCalculator.StandingsCoefficient | src/fantrax_pl_team_manager/services/fantasy_value_calculator.py:70-93 | fails iff the team or the opponent is missing or the table has a single team; a missing team is reported before a missing opponent |
| ValueCalculator.StandingsBounds | src/fantrax_pl_team_manager/services/fantasy_value_calculator.py:88-89 | the coefficient lies strictly between 1 - k and 1 + k |
| ValueCalculator.StandingsMonotone | src/fantrax_pl_team_manager/services/fantasy_value_calculator.py:88-89 | the coefficient does not decrease with the rank difference |
| ValueCalculator.StandingsRange | src/fantrax_pl_team_manager/services/fantasy_value_calculator.py:91 | every coefficient lies between the one for rank 1 against rank N and the one for rank N against rank 1 |
| ValueCalculator.LowerIsHome | src/fantrax_pl_team_manager/services/fantasy_value_calculator.py:123 | the home/away field lowers to "home" iff it is "home" in any letter case |
| ValueCalculator.OddsCoefficientBounds | src/fantrax_pl_team_manager/services/fantasy_value_calculator.py:114-160 | with non-negative prices the coefficient is in [1 - k, 1 + k]; it is 1.0 without a record or without either team price |
| ValueCalculator.OpposingSides | src/fantrax_pl_team_manager/services/fantasy_value_calculator.py:119-137 | when the record names both teams they take opposite prices whatever their home/away fields, and without a draw price their coefficients add up to 2 |
| ValueCalculator.GameweekValueModes | src/fantrax_pl_team_manager/services/fantasy_value_calculator.py:25-44 | with odds only the odds coefficient applies and nothing fails; without, the value fails exactly on the standings lookup errors and is the mean times the standings coefficient; no points gives 0 |
| ValueCalculator.GameweekValueFields | src/fantrax_pl_team_manager/services/fantasy_value_calculator.py:14-44 | the value depends only on the points, team, opponent and home/away field |
| Fixtures.OddsFor | src/fantrax_pl_team_manager/services/lineup_optimizer.py:19-24 | definition: the first record whose teams are the player's team and its opponent, in either orientation. OddsForFirstMatch states it both ways |
| Fixtures.MatchOf | src/fantrax_pl_team_manager/domain/fantasy_roster.py:234-238 | definition: the (home, away) pair of the player's game, with its team at home only for the exact field "home". MatchOfOpponents states its orientation |
| Fixtures.OddsForFirstMatch | src/fantrax_pl_team_manager/services/lineup_optimizer.py:19-24 | no record is used iff none covers the game in either orientation; otherwise the first covering record is |
| Fixtures.FindOdds | src/fantrax_pl_team_manager/services/lineup_optimizer.py:19-24 | the search loop with its break returns the record the lookup gives |
| Fixtures.MatchOfOpponents | src/fantrax_pl_team_manager/domain/fantasy_roster.py:232-239 | a player's match is its (team, opponent) pair in one orientation; the home player and its away opponent give the same match |
| Fixtures.GetMatches | src/fantrax_pl_team_manager/domain/fantasy_roster.py:223-239 | a pair is in the set iff some unlocked player's match is that pair |
| LineupOptimizer.PlayerValue | src/fantrax_pl_team_manager/services/lineup_optimizer.py:19-25 | definition: the calculator's value with the odds record found for the player's game. ValueOverwritten states that it does not read the old value |
| LineupOptimizer.Revalued | src/fantrax_pl_team_manager/services/lineup_optimizer.py:18-26 | definition: every player carrying the calculator's value. RevaluedHasOwnValues and RevaluedFixed state its properties |
| LineupOptimizer.ValuePlayer | src/fantrax_pl_team_manager/services/lineup_optimizer.py:19-25 | the search for the odds record and the calculator's call give the player's value |
| LineupOptimizer.RevalueEach | src/fantrax_pl_team_manager/services/lineup_optimizer.py:18-26 | succeeds iff every player can be valued, and then returns the revalued roster; on the first failure it returns that error with the players before it revalued and the rest untouched |
| LineupOptimizer.ValueOverwritten | src/fantrax_pl_team_manager/services/lineup_optimizer.py:25-26 | the new value does not depend on the old value or on the starter flag |
| LineupOptimizer.OptimizeWithValues | src/fantrax_pl_team_manager/services/lineup_optimizer.py:11-49 | succeeds iff every player can be valued, and then leaves the rebuild (uncertain first) of the revalued roster; on the first failure it stops with that error: the players before it carry their new values, the failing player and those after it are untouched, and nothing is sorted |
| LineupOptimizer.RevaluedHasOwnValues | src/fantrax_pl_team_manager/services/lineup_optimizer.py:18-26 | after revaluation every player carries the calculator's value for it |
| LineupOptimizer.OptimizedMembers | src/fantrax_pl_team_manager/services/lineup_optimizer.py:28-49 | every player of the rebuilt roster is a player of the input with at most its starter flag changed |
| LineupOptimizer.RevaluedFixed | src/fantrax_pl_team_manager/services/lineup_optimizer.py:18-26 | a roster already carrying its own values is left alone by revaluation |
| LineupOptimizer.OptimizeTwice | src/fantrax_pl_team_manager/services/lineup_optimizer.py:11-49 | running the optimizer twice on unchanged inputs gives the same roster |
| PlayerObjects.RosterPlayer.constructor | src/fantrax_pl_team_manager/domain/fantrax_roster_player.py:25-41 | the flag, position and lock are stored as given |
| PlayerObjects.RosterPlayer.Unlocked | src/fantrax_pl_team_manager/domain/fantasy_roster_player.py:24-39 | without a lock argument the player is unlocked |
| PlayerObjects.RosterPlayer.ChangeToStarter | src/fantrax_pl_team_manager/domain/fantasy_roster_player.py:43-45 | the flag becomes True; the position is unchanged |
| PlayerObjects.RosterPlayer.ChangeToReserve | src/fantrax_pl_team_manager/domain/fantasy_roster_player.py:47-49 | the flag becomes False; the position is unchanged |
| PlayerObjects.RosterPlayer.SwapStartingStatus | src/fantrax_pl_team_manager/domain/fantrax_roster_player.py:53-58 | "is a starter" is negated; an unset flag becomes True |
| PlayerObjects.RosterPlayer.SwapTwice | src/fantrax_pl_team_manager/domain/fantrax_roster_player.py:53-58 | two swaps restore a set flag and turn an unset one into False |
| PlayerObjects.StatusIdPlayer.constructor | src/fantrax_pl_team_manager/services/fantrax_player.py:30-41 | the icon statuses keep only known ids, and the value is the status bonus, in 0..3 |
| PlayerObjects.StatusIdPlayer.PositionShortName | src/fantrax_pl_team_manager/services/fantrax_roster_player.py:48-50 | a short name read back is one of G/D/M/F |
| PlayerObjects.StatusIdPlayer.ChangePositionByShortName | src/fantrax_pl_team_manager/services/fantrax_roster_player.py:52-58 | the id is set iff the name is G/D/M/F, and the short name then reads back unchanged |
| PlayerObjects.StatusIdPlayer.ChangeToStarter | src/fantrax_pl_team_manager/services/fantrax_roster_player.py:60-62 | the status id becomes the starter id; nothing else changes |
| PlayerObjects.StatusIdPlayer.ChangeToReserve | src/fantrax_pl_team_manager/services/fantrax_roster_player.py:64-66 | the status id becomes the reserve id; nothing else changes |
| PlayerObjects.StatusIdPlayer.SwapStartingStatus | src/fantrax_pl_team_manager/services/fantrax_roster_player.py:68-73 | "is a starter" is negated; position and value are unchanged |
| PlayerObjects.StatusIdPlayer.UpdateValueForGameweek | src/fantrax_pl_team_manager/services/fantrax_player.py:91-99 | the value grows by the status bonus |
| PlayerObjects.FormPlayer.constructor | src/fantrax_pl_team_manager/domain/fantrax_player.py:16-24 | both fantasy values start at 0 |
| PlayerObjects.FormPlayer.UpdateFantasyValueForGameweek | src/fantrax_pl_team_manager/domain/fantrax_player.py:113-165 | the mean is added onto the current value, then multiplied by the coefficient; a lookup error stops after the addition |
| PlayerObjects.AccumulateVersusOverwrite | src/fantrax_pl_team_manager/domain/fantrax_player.py:113-123 | accumulating agrees with the calculator's overwrite only from 0 or with a zero coefficient |
| Substitutions.Greedy | src/fantrax_pl_lineup_manager/services/fantrax_roster.py:228-238 | definition: each starter in turn takes the first candidate left that the validator accepts on the unchanged roster, and that candidate is removed. GreedyPairs states its properties |
| Substitutions.OptimalSubstitutions | src/fantrax_pl_lineup_manager/services/fantrax_roster.py:209-240 | definition: the at-risk starters, lowest value first, paired against the playable reserves, highest value first. OptimalSubstitutionsPairs states its properties |
| Substitutions.FindPartner | src/fantrax_pl_lineup_manager/services/fantrax_roster.py:230-238 | the inner loop stops at the first candidate the validator accepts, or runs out when none is accepted |
| Substitutions.PairGreedily | src/fantrax_pl_lineup_manager/services/fantrax_roster.py:228-238 | the nested loop with removal returns the greedy pairing |
| Substitutions.ApplyPairs | src/fantrax_pl_lineup_manager/services/gameweek_manager.py:43-47 | definition: the pairs applied in list order, each as `substitute_players(reserve id, starter id)` on the roster as changed so far, stopping at the first refusal with the earlier swaps kept. ApplyPairsKeeps states what it keeps |
| Substitutions.ExactCheck | src/fantrax_pl_lineup_manager/services/fantrax_roster.py:115-150 | accepts iff 11 starters, one goalkeeper and every outfield bound hold; the starter total is checked before the goalkeeper |
| Substitutions.ExactSwapVerdict | src/fantrax_pl_lineup_manager/services/fantrax_roster.py:96-150 | fails iff an id is unknown, the first id being looked up first |
| Substitutions.SwapPairCounts | src/fantrax_pl_lineup_manager/services/fantrax_roster.py:111-116 | the counts the validator builds are the starter counts of the roster with both flags swapped |
| Substitutions.ExactSwapAccepts | src/fantrax_pl_lineup_manager/services/fantrax_roster.py:96-150 | accepts iff both ids are found, exactly one of the players starts, and the swapped roster is a complete lineup; so only a roster of 11 starters is accepted |
| Substitutions.Substituted | src/fantrax_pl_lineup_manager/services/fantrax_roster.py:152-170 | succeeds iff the validator accepts, else raises its error or reason; a success swaps exactly the two flags and keeps a complete lineup with the same number of starters |
| Substitutions.SubstitutePlayers | src/fantrax_pl_lineup_manager/services/fantrax_roster.py:152-170 | on success the roster becomes the swapped one; on refusal it is unchanged and the error is returned |
| Substitutions.FirstValid | src/fantrax_pl_lineup_manager/services/fantrax_roster.py:230-238 | the candidate found is the first one the validator accepts; none is found only when it accepts none |
| Substitutions.Remove | src/fantrax_pl_lineup_manager/services/fantrax_roster.py:235 | removing a candidate takes exactly one copy of it out of the list |
| Substitutions.GreedyPairs | src/fantrax_pl_lineup_manager/services/fantrax_roster.py:229-238 | every returned pair is accepted on the unchanged roster; no starter or reserve is used more often than offered |
| Substitutions.OptimalSubstitutionsPairs | src/fantrax_pl_lineup_manager/services/fantrax_roster.py:209-239 | every pair joins an at-risk starter and a playable reserve, each accepted on the unchanged roster, each used at most once |
| Substitutions.GetOptimalSubstitutions | src/fantrax_pl_lineup_manager/services/fantrax_roster.py:209-239 | the nested loop with break and removal returns the greedy pairing |
| Substitutions.ApplyPairsKeeps | src/fantrax_pl_lineup_manager/services/gameweek_manager.py:43-47 | applying pairs keeps the number of starters, changes only flags, and any roster reached by a swap is a complete lineup |
| Substitutions.ApplySubstitutions | src/fantrax_pl_lineup_manager/services/gameweek_manager.py:43-47 | the pairs are applied in order, reserve id first; the first refusal stops the loop with the earlier swaps kept |
| Substitutions.MakeSubstitutions | src/fantrax_pl_lineup_manager/services/gameweek_manager.py:31-47 | the roster and error are those of applying the greedy pairing of the roster |
| Substitutions.RunGameweekManager | src/fantrax_pl_lineup_manager/services/gameweek_manager.py:18-29 | one error entry per cycle, each that cycle's error; a failure does not stop the loop; the roster ends as the last cycle left it |
| Substitutions.StaleValidation | src/fantrax_pl_lineup_manager/services/fantrax_roster.py:229-238 | on a complete 1-4-4-2 lineup, the greedy pairing of two starting defenders against two forward reserves returns both pairs, and applying them stops at the second with "Must have at least 3 Defenders" |
| Substitutions.StaleOptimalSubstitutions | src/fantrax_pl_lineup_manager/services/fantrax_roster.py:209-240 | on such a roster whose only at-risk starters are those defenders and whose only playable reserves are those forwards, `get_optimal_substitutions` returns both pairs, and applying them stops at the second with "Must have at least 3 Defenders" |
| Substitutions.SecondSwapRefused | src/fantrax_pl_lineup_manager/services/gameweek_manager.py:43-47 | on that lineup the first swap is accepted and the second is then refused for leaving two defenders |
| Substitutions.SequentialGreedyApplies | src/fantrax_pl_lineup_manager/services/fantrax_roster.py:229-238 | pairs judged against the roster as it changes apply with no refusal |
| Substitutions.CorrectedSubstitutionsApply | src/fantrax_pl_lineup_manager/services/gameweek_manager.py:40-47 | the corrected substitutions never stop midway |
| Substitutions.CorrectedOnStaleExample | src/fantrax_pl_lineup_manager/services/fantrax_roster.py:229-238 | on that lineup the corrected pairing keeps only the first pair, and it applies |
| Substitutions.CorrectedOnStaleRoster | src/fantrax_pl_lineup_manager/services/fantrax_roster.py:209-240 | on the roster of StaleOptimalSubstitutions the corrected substitutions are the first pair alone, and applying them raises nothing |
| Substitutions.MakeSequentialSubstitutions | src/fantrax_pl_lineup_manager/services/gameweek_manager.py:31-47 | with the corrected pairing every pair found is applied and no error is raised |
| Tuning.ActualBest | src/fantrax_pl_team_manager/tuning/tune_calculator_parameters.py:29-47 | definition: the copy unlocked, valued at the gameweek's points, all benched and walked, or the index error when a player lacks that gameweek. ActualBestDecision, ActualBestWithinCaps and ActualBestMaximal state its outcome |
| Tuning.PrepareForGameweek | src/fantrax_pl_team_manager/tuning/tune_calculator_parameters.py:31-34 | the copy loop unlocks every player and gives it the gameweek's points, or raises the index error when a player lacks that gameweek |
| Tuning.BenchAll | src/fantrax_pl_team_manager/tuning/tune_calculator_parameters.py:36-37 | the loop makes every player of the copy a reserve, locked or not |
| Tuning.PyIndex | src/fantrax_pl_team_manager/tuning/tune_calculator_parameters.py:34 | a Python index succeeds iff it lies in [-n, n), and yields an element of the list |
| Tuning.GameweekPointsIndex | src/fantrax_pl_team_manager/tuning/tune_calculator_parameters.py:34 | gameweek 1 reads the first entry, later gameweeks count back from the last, and out-of-range gameweeks raise |
| Tuning.AllReservesCounts | src/fantrax_pl_team_manager/tuning/tune_calculator_parameters.py:36-37 | after benching everyone no position has a starter |
| Tuning.ActualBestDecision | src/fantrax_pl_team_manager/tuning/tune_calculator_parameters.py:31-43 | each player of the best lineup is the input player, unlocked and valued at its points, starting iff the relaxed validator accepted it at its turn |
| Tuning.ActualBestWithinCaps | src/fantrax_pl_team_manager/tuning/tune_calculator_parameters.py:36-43 | the best lineup is within the caps |
| Tuning.ActualBestMaximal | src/fantrax_pl_team_manager/tuning/tune_calculator_parameters.py:38-43 | no reserve of the best lineup could still be promoted |
| Tuning.ActualBestLineupForGameweek | src/fantrax_pl_team_manager/tuning/tune_calculator_parameters.py:29-47 | returns the walked copy or the index error; the caller's roster is only sorted (uncertain first), and left unchanged when the gameweek is missing |
| Tuning.StarterPointsIsSum | src/fantrax_pl_team_manager/tuning/tune_calculator_parameters.py:52-56 | the accumulated total is the sum of the starters' values |
| Tuning.ActualBestLineupTotalPoints | src/fantrax_pl_team_manager/tuning/tune_calculator_parameters.py:49-57 | fails iff a player lacks the gameweek; otherwise the total is the sum of the best lineup's starters' values |

## Left out

- HTTP clients, login, cookies, the sync with Fantrax and the refresh methods are network I/O. A refresh becomes the roster passed in for that cycle.
- Logging, `print`, JSON output, `__str__`/`_to_dict` and the entry points are left out.
- The async `run` loops never stop on their own. `Rosters.Run` and `Substitutions.RunGameweekManager` follow them through as many cycles as refreshed rosters are given. Sleeping and threads are not modelled.
- The roster manager's `run` does not catch exceptions in its run-once branch. An exception in its loop would be caught. Its modelled cycle raises nothing, because the sync is left out.
- `ValueCalculator.Tanh` is the stand-in x/(1+|x|) for `math.tanh`. It is odd, strictly increasing and strictly between -1 and 1, which are the properties the coefficients rely on. The exact values of the standings coefficient are therefore not those of the source.
- `PlayerObjects.FormPlayer.UpdateFantasyValueForGameweek`: k and a are parameters, because the constants module behind the domain player is not part of this model. The calculator uses its own defaults, 0.8 and 0.4.
- PlayerObjects.FormPlayer.UpdateFantasyValueForGameweek: does not model the `TypeError` of multiplying a float by a `Decimal` (domain/fantrax_player.py:123); values are reals.
- Values are reals throughout. Float rounding and `Decimal` semantics are not modelled.
- Positions are a four-value type. The `KeyError` that an unknown position short name raises inside the validators is not modelled. The lookups by short name model their own error.
- Lowercasing is modelled for ASCII letters only, which covers the "home" comparison.
- Python's stable sort is modelled by a stable insertion sort. Only its result (permutation, order, stability) is relied on.
- `list.remove` removes the first equal element; the greedy pairing removes the candidate at the index it found. These agree whenever equal candidates are indistinguishable, which is the case for equal records.
- The greedy pairing in the lineup manager can never meet an unknown id, because its ids come from the roster itself. Its error path is therefore not followed separately.
- The service roster player module cannot be loaded as shipped. Its import at services/fantrax_roster_player.py:10-16 asks services/fantrax_player.py for `ROSTER_STATUS_STARTER` and `ROSTER_STATUS_RESERVE`, which that module does not define. The roster manager imports this module (services/fantrax_roster_manager.py:8), so it fails to load as well. `Rosters.Run`, `Rosters.Roster.OptimizeLineup` with the playing-first tiers, and the `PlayerObjects.StatusIdPlayer` methods model the manager as its code reads once the import resolves, with the status ids "1" and "2" that services/fantrax_player.py:45 and :78-82 use. The failing import itself is not modelled.
- The service roster player's constructor also calls the base constructor with arguments the base does not take. The constructor is not modelled.
- `match_time_within_window`, the JSON mappers (including the '@' away rule) and the legacy service package are not part of this model.
- `compare_actual_best_lineup_and_optimized_lineup` and the tuning script's main block reference undefined names. They are not part of this model.
- The lineup manager's player module (src/fantrax_pl_lineup_manager/services/fantrax_player.py) is not part of this model, although its roster imports its players, `POSITION_MAP_BY_ID` and `POSITION_MAP_BY_SHORT_NAME` from it (src/fantrax_pl_lineup_manager/services/fantrax_roster.py:6). Every `Substitutions` member models those players by `Players.Player`, with the team manager's status predicates, status ids "1"/"2", swap and G/D/M/F position map (src/fantrax_pl_team_manager/services/fantrax_player.py:6-22, :43-99) and a value for the gameweek. The exact validator's position keys and the "Invalid position" test rest on that map.
- The domain validators (domain/fantrax_roster.py:107-138, domain/fantasy_roster.py:112-143) take their limits, and the numbers in their messages, from the constants module `fantrax_pl_team_manager.domain.constants`, which is not part of this model. The model uses the literal values of services/fantrax_roster_manager.py:199-229 (at most 11 starters, at least 3 defenders, 3 midfielders and 1 forward, at most 1 goalkeeper, 5 defenders, 5 midfielders and 3 forwards) for every copy of the validator.
- The calculator's docstrings disagree with its code. The standings coefficient's docstring (services/fantasy_value_calculator.py:59-60) gives k 0.7 and a 1, but the code's defaults (:49-50) are 0.8 and 0.4. The booking-odds docstring (:109) gives k 0.15, but the code's default (:98) is 0.3. The code's values are modelled.
- The domain player's docstring (domain/fantrax_player.py:135-136) also gives k 0.7 and a 1. Its defaults are the constants `DEFAULT_UPCOMING_GAME_COEFFICIENT_K` and `_A` (:127-128), whose values are not part of this model, so the docstring cannot be checked against them.

## Findings

| source | as written | input that shows it | evidently intended | confidence | as-written member | corrected member |
|---|---|---|---|---|---|---|
| src/fantrax_pl_lineup_manager/services/fantrax_roster.py:229-238 | every pair is validated against the unchanged roster, but the pairs are applied one after another, each validated again against the roster as changed | a complete 1-4-4-2 lineup whose two at-risk starters are defenders, with two playable forward reserves: both pairs are returned, the first swap leaves 3 defenders and the second is refused with "Must have at least 3 Defenders" | every pair returned can be applied in turn | medium, not executed | Substitutions.StaleOptimalSubstitutions | Substitutions.SequentialGreedyApplies |
