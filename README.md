# draft_wheel in Dafny

This project is a Dafny model of the core of draft_wheel, a team-draft tool that
runs on a lottery wheel. Players have a rating (MMR) and a ranked list of roles
(`carry(1)|mid(2)|...`). For a given team and role, the draft engine turns the
pool of undrafted players into a probability for each candidate. A candidate
whose rating is close to what the team needs is likelier, and so is one who
ranks the role highly; a uniform share is blended in. The wheel lays these
probabilities out as contiguous segments of a 0..100 scale. A pointer bounces
along the scale until friction stops it, and the player under it joins the
team. Picks can be undone, and the state can be reloaded from saved rows.

Files and modules:

- `wrappers.dfy` (`Wrappers`): `Option`.
- `types.dfy` (`DraftTypes`): players, role priorities, roster entries, teams, history events.
- `text.dfy` (`Text`): the Python string operations the role format needs: `strip`, `split`, `join`, `index`, `int()` and `str()`.
- `role_grammar.dfy` (`RoleGrammar`): the role-list parser and serialiser, and their round trip.
- `probability.dfy` (`ProbabilityEngine`): `compute_probabilities` and `get_role_preference_factor`.
- `lottery.dfy` (`Lottery`): the parts both wheel widgets share:
  - segment layout
  - first-match selection
  - one frame of pointer motion
  - the start velocity and the friction clamp
- `modern_wheel.dfy` (`ModernWheelComponent.ModernWheel`) and `wheel_display.dfy` (`WheelDisplayComponent.WheelDisplay`): the two wheel widgets, as classes whose fields the methods update.
- `roster.dfy` (`Roster`): what each draft update does to the pools, the rosters and the averages. It also holds the lemmas showing that an undo reverses a pick.
- `sorting.dfy` (`Sorting`): Python's string order, `sorted()` of a set, and the stable sort by rating.
- `state_loading.dfy` (`StateLoading`): what `load_state` rebuilds from the rows of the two saved files.
- `draft_logic.dfy` (`DraftLogic`): the `DraftLogic` object as the class `DraftState`. Its invariant `Valid()` says:
  - every roster, pool and history name is a known player;
  - every history team exists;
  - every team's stored average is its roster's mean rating.

  The module also holds the ideal-rating and average functions.

Ratings are integers. Averages, probabilities and positions are exact reals.
Python dicts whose order shows in a result are sequences of pairs: the
probability dict, and the grouping of team rows by id. Other dicts are maps.

## Model

| member | source | states |
|---|---|---|
| RoleGrammar.ParseRolesWithPriority | logic/draft_logic.py:91-114 | The empty string gives no entries. Otherwise there is one entry per `\|`-separated part, in order (separators + 1 entries), each read as ParsePart reads it. |
| RoleGrammar.RolesToString | logic/draft_logic.py:342-349 | The result is `role(priority)` per entry, joined by `\|`. |
| RoleGrammar.RolesRoundTrip | logic/draft_logic.py:91-114 | Parsing what the serialiser wrote gives the role list back, for role names without `\|`, parentheses or surrounding whitespace. |
| RoleGrammar.ParsePartFormat | logic/draft_logic.py:101-111 | A single formatted entry `role(priority)` reads back as that role and priority. |
| RoleGrammar.SplitCount | logic/draft_logic.py:98 | `split('\|')` gives one more part than there are separators. |
| Text.SplitJoin | logic/draft_logic.py:98 | Splitting a `\|`-join gives the parts back when no part holds the separator. |
| Text.ParseIntToString | logic/draft_logic.py:106-110 | `int(str(n)) == n`: a written priority reads back, so the `except` fallback to 1 is never taken for it. |
| ProbabilityEngine.RolePreferenceFactor | probability_calc.py:63-81 | The factor is one of 0, 0.9, 0.6 and 0.1. |
| ProbabilityEngine.RolePreferenceFactorFirst | probability_calc.py:72-81 | The factor is positive iff some entry names the role with priority 1, 2 or 3. It is then the factor of the first such entry; later entries and other priorities are skipped. |
| ProbabilityEngine.PutKeys | probability_calc.py:36 | Dict assignment keeps the keys distinct, and the keys afterwards are the old keys plus the assigned one. |
| ProbabilityEngine.RawWeights | probability_calc.py:24-36 | Every entry is a candidate with a positive factor, weighted `factor / (abs(mmr - ideal) + 1)`. |
| ProbabilityEngine.CollectRawWeights | probability_calc.py:24-36 | The loop builds exactly RawWeights. |
| ProbabilityEngine.BlendWeights | probability_calc.py:47-52 | The loop gives each entry `w * (1 - b) / total + b / N`. |
| ProbabilityEngine.Normalized | probability_calc.py:54-58 | The rescale loop gives Normalize: every value divided by the sum when the sum is off by more than 1e-8. |
| ProbabilityEngine.ComputeProbabilities | probability_calc.py:5-60 | The result is the specification Probabilities: ideal rating, raw weights, uniform fallback, blend, rescale. |
| ProbabilityEngine.ProbabilitiesKeys | probability_calc.py:24-39 | The keys are distinct and are exactly the candidates with a positive role factor. |
| ProbabilityEngine.ProbabilitiesEmpty | probability_calc.py:38-39 | The result is empty iff no candidate ranks the role. |
| ProbabilityEngine.ProbabilitiesSumToOne | probability_calc.py:41-58 | With any weight present, the total is positive, the uniform fallback is never taken, the result is the blend, and it sums to 1. |
| ProbabilityEngine.ProbabilityFloor | probability_calc.py:47-52 | Each probability is `mmr_part + uniform_part`. For randomness in [0, 1] it is at least `b / N`. |
| ProbabilityEngine.CloserWeighsMore | probability_calc.py:33-35 | With equal factors, a rating at least as close to the ideal weighs at least as much. |
| ProbabilityEngine.CloserIsLikelier | probability_calc.py:19-52 | With equal factors and `b <= 1`, a candidate at least as close to the ideal is at least as likely. |
| Lottery.BuildSegments | gui/components/modern_wheel.py:371-389 | The accumulator loop gives SegmentsOf: entries in dict order, each starting where the previous one ends. |
| Lottery.SegmentsShape | gui/components/wheel_display.py:106-114 | There is one segment per entry, named after it and `prob * 100` wide. The first starts at 0, each starts where the previous ends, and the last ends at 100 times the sum. |
| Lottery.SegmentsWithinScale | gui/components/wheel_display.py:106-114 | With no negative probability, every segment lies inside [0, 100 * sum]. |
| Lottery.SegmentsOrdered | gui/components/wheel_display.py:106-114 | With no negative probability, segments do not overlap and follow dict order. |
| Lottery.SegmentsCoverScale | gui/components/wheel_display.py:106-114 | With no negative probability, every position in [0, 100 * sum) lies in some segment. |
| Lottery.FirstContaining | gui/components/modern_wheel.py:305-308 | The index found is the first segment with `start <= x < end`; no earlier segment holds x. |
| Lottery.SelectWinner | gui/components/modern_wheel.py:301-308 | The selection loop returns the player of the first segment holding the pointer, or none. |
| Lottery.WinnerHoldsPointer | gui/components/modern_wheel.py:303-308 | There is no winner iff no segment holds x. A winner's segment holds x and no earlier one does. |
| Lottery.WinnerOnScale | logic/draft_logic.py:166-178 | On a distribution's segments, a position selects a player iff it lies in [0, 100 * sum). It then selects the one whose segment holds it. |
| Lottery.ProbabilityWheelFillsScale | gui/components/modern_wheel.py:381-389 | The wheel built from compute_probabilities' result ends at 100. Every position in [0, 100) selects a player; position 100 selects no one. |
| Lottery.ReflectOnScale | gui/components/modern_wheel.py:274-284 | From the scale with speed up to 100, the reflected pointer stays on [0, 100] with the same speed. It moves plainly when it stays inside and its velocity flips otherwise. |
| Lottery.StepOnScale | gui/components/modern_wheel.py:274-287 | With friction in [0, 1], a frame keeps the pointer on [0, 100] and never raises the speed above its bound. |
| Lottery.StepSpeed | gui/components/modern_wheel.py:286-287 | Each frame multiplies the speed by the friction. |
| Lottery.InitialVelocity | gui/components/modern_wheel.py:258-262 | A draw from [-5, 5] starts at speed between 1 and 5 with its sign kept. A draw of speed at least 1 is kept. |
| Lottery.ClampFriction | gui/components/modern_wheel.py:369 | The clamp maps into [0, 0.999] and is the identity inside it. |
| ModernWheelComponent.ModernWheel.constructor | gui/components/modern_wheel.py:10-28 | Starts with no segments, the pointer at 0 and at rest, not bouncing, and the friction as given. |
| ModernWheelComponent.ModernWheel.Clear | gui/components/modern_wheel.py:229-239 | Drops the segments and stops the bounce; nothing else changes. |
| ModernWheelComponent.ModernWheel.SetFriction | gui/components/modern_wheel.py:362-369 | The friction becomes `max(0, min(0.999, f))`, within [0, 0.999]; nothing else changes. |
| ModernWheelComponent.ModernWheel.UpdateAnimation | gui/components/modern_wheel.py:269-299 | When not bouncing, nothing changes. Otherwise the pointer takes one Step. Below speed 0.2 the bounce stops with the selected player; else the frame continues. The pointer stays on the scale. |
| ModernWheelComponent.ModernWheel.Spin | gui/components/modern_wheel.py:241-267 | Without segments, nothing changes. Otherwise it stores the segments, applies the minimum start speed and runs the first frame. A draw from the source's ranges keeps the pointer on the scale. |
| WheelDisplayComponent.WheelDisplay.constructor | gui/components/wheel_display.py:31-36 | Starts with no segments, the pointer at 0 and at rest, friction 0.99 and no colours. |
| WheelDisplayComponent.WheelDisplay.Clear | gui/components/wheel_display.py:90-94 | Drops the segments and the colour cache; a running bounce is not stopped. |
| WheelDisplayComponent.WheelDisplay.BuildSegments | gui/components/wheel_display.py:96-114 | Returns SegmentsOf(probs) and keeps it as the current segments. |
| WheelDisplayComponent.WheelDisplay.UpdateBounce | gui/components/wheel_display.py:144-169 | When not bouncing, nothing changes. Otherwise the pointer takes one Step. Below speed 0.2 the bounce stops and the position goes to the callback. The pointer stays on the scale. |
| WheelDisplayComponent.WheelDisplay.Spin | gui/components/wheel_display.py:124-142 | Returns False and changes nothing without segments. Otherwise it starts the bounce with the minimum start speed and runs the first frame. |
| Roster.RemoveFirst | logic/draft_logic.py:180-183 | `remove` when present: one element fewer, nothing new. An absent element leaves the list unchanged. |
| Roster.RemoveFirstCutsFirst | logic/draft_logic.py:180-183 | The element removed is the first occurrence, and the rest keep their order. |
| Roster.RemoveFirstMultiset | logic/draft_logic.py:180-183 | Exactly one copy leaves the list when there is one. |
| Roster.RemovedEverywhere | logic/draft_logic.py:180-183 | The set of roles is unchanged. |
| Roster.RemovedEverywhereMultiset | logic/draft_logic.py:180-183 | Every pool loses exactly one copy of the player when it holds one, and nothing else. |
| Roster.RemovedKnown | logic/draft_logic.py:180-183 | Removing a player from every pool leaves only known players in the pools. |
| Roster.Restore | logic/draft_logic.py:209-213 | The restored pools hold only their old names and the player. |
| Roster.RestoreKeys | logic/draft_logic.py:209-213 | The restored pools are the old roles plus every role the list names: a missing pool is created. |
| Roster.RestoreContents | logic/draft_logic.py:209-213 | Each pool ends with its old contents plus one copy of the player per mention of its role. |
| Roster.Joined | logic/draft_logic.py:185-189 | The team after an append stores its roster's mean rating. |
| Roster.JoinedAverage | logic/draft_logic.py:185-189 | `new average * (n + 1) == old average * n + newcomer's rating`. |
| Roster.Withdrawn | logic/draft_logic.py:199-207 | The team after the undo's removal stores its roster's mean rating, 0 when empty. |
| Roster.ConsistentGrow | logic/draft_logic.py:228-229 | Adding an unknown captain to the players leaves every stored average correct. |
| Roster.WithdrawJoined | logic/draft_logic.py:185-207 | Undoing an append restores the roster and the average exactly. |
| Roster.PoolsRestored | logic/draft_logic.py:180-213 | Removing a player and restoring them by their role list gives every pool its names back, up to order. This holds when the player sat once in each of their roles' pools. |
| Sorting.BelowAntisymmetric | logic/draft_logic.py:134 | The string order is antisymmetric. |
| Sorting.BelowTransitive | logic/draft_logic.py:134 | The string order is transitive. |
| Sorting.SortedNames | logic/draft_logic.py:133-134 | `sorted(set)`: strictly ascending, with the set's elements and its size. |
| Sorting.AscendingUnique | logic/draft_logic.py:134 | Only one strictly ascending list holds a given set of names. |
| Sorting.SortByMmrSorted | logic/draft_logic.py:216-222 | The rating sort is highest first, is a permutation, and keeps equal ratings in pool order. |
| DraftLogic.IdealForPick | logic/draft_logic.py:411-431 | With open slots, `ideal * picks_left + average * n == team_size * global`. A full roster gives 0. |
| DraftLogic.IdealCompletesTeam | logic/draft_logic.py:411-431 | With a consistent average, filling every open slot at the ideal brings the team total to `team_size * global`. |
| DraftLogic.IdealsAgreeOnLastPick | logic/draft_logic.py:411-431 | On the last open slot, the displayed ideal equals the ideal compute_probabilities aims at. |
| DraftLogic.SortedPoolsOrdered | logic/draft_logic.py:216-222 | Every sorted pool is ordered highest first, holds the pool's names and is stable. |
| DraftLogic.PickKeepsExclusive | logic/draft_logic.py:166-189 | A pick of a player who sits at most once in each pool leaves them in no pool and as the last roster entry of the team. No drafted name is in a pool afterwards when none was before. |
| DraftLogic.UndoReversesPick | logic/draft_logic.py:166-214 | A pick followed by its undo restores the history and the teams exactly. Every pool gets its names back (order aside). |
| DraftLogic.SetMmrSumBounds | logic/draft_logic.py:446 | A set's rating sum lies between its size times any lower and any upper bound. |
| DraftLogic.PoolAverageBounds | logic/draft_logic.py:433-447 | The pool average lies between the lowest and highest undrafted rating. |
| DraftLogic.WeightedAveragesSum | logic/draft_logic.py:449-462 | With consistent teams, the size-weighted team averages add up to the rating sum over all rosters. |
| DraftLogic.DraftedAverageWeighted | logic/draft_logic.py:449-462 | The drafted average times the entry count equals the sum of team averages weighted by roster size. |
| DraftLogic.DraftState.constructor | logic/draft_logic.py:18-89 | Each configured role gets an empty pool. The player rows are read in, and the configured teams are registered empty. The state is valid. |
| DraftLogic.DraftState.RegisterDefaultTeams | logic/draft_logic.py:56-59 | Registering the configured ids in order gives exactly one empty team per id; the state stays valid. |
| DraftLogic.DraftState.RegisterTeam | logic/draft_logic.py:116-121 | An unknown id gets an empty team; an existing team is never replaced. Validity is kept. |
| DraftLogic.DraftState.RemovePlayer | logic/draft_logic.py:180-183 | Every pool loses one occurrence of the player; nothing else changes. Validity is kept. |
| DraftLogic.DraftState.AssignToTeam | logic/draft_logic.py:185-189 | The entry is appended, the team average recomputed, and validity kept. |
| DraftLogic.DraftState.PickPlayerFromPosition | logic/draft_logic.py:166-178 | The picked player is the first segment holding the position. They leave the pools, join the roster and are recorded for undo. With no segment holding the position, nothing changes. |
| DraftLogic.DraftState.RestoreToPools | logic/draft_logic.py:209-213 | The player is appended to the pool of each listed role, in order, creating missing pools. |
| DraftLogic.DraftState.UndoLastPick | logic/draft_logic.py:191-214 | The last event is popped and the player withdrawn from the roster. The average is recomputed and the player returned to their roles' pools. With no history, nothing changes. Validity is kept. |
| DraftLogic.DraftState.AddCaptainToTeam | logic/draft_logic.py:225-240 | The team is registered if missing, and an unknown captain is added with the given rating. The captain entry is appended, the average recomputed and the event recorded. The pools are untouched. |
| DraftLogic.DraftState.LearnPlayer | logic/draft_logic.py:228-229 | A player not yet known is added with the given record, which AddCaptainToTeam builds from the rating and no roles; the rest of the state is unchanged and every stored average stays correct. |
| DraftLogic.DraftState.GetIdealMmrForPick | logic/draft_logic.py:411-431 | The ideal for the team's next pick, as IdealForPick states it. |
| DraftLogic.ComputeProbabilitiesAsWritten | logic/draft_logic.py:136-164 | The guards give an empty dict. With the keywords the source passes, every call past the guards raises TypeError, given a configuration that holds the keys those keywords read. With exactly the engine's parameters it returns the engine's distribution. |
| DraftLogic.AsWrittenRaisesOnFirstPick | logic/draft_logic.py:150-163 | A first pick from a one-player pool raises as written, and returns a non-empty distribution when called with the engine's parameters only. |
| DraftLogic.DraftState.ComputeProbabilities | logic/draft_logic.py:136-164 | An unknown team, an unknown role or an empty pool gives nothing. Otherwise the blend weight is looked up by roster size, 0.30 when unlisted. The keys are pool members with a positive factor, and a non-empty result sums to 1. |
| DraftLogic.DraftState.GetUnfilledRolesForTeam | logic/draft_logic.py:126-134 | Nothing for an unknown team. Otherwise the result is ascending and holds exactly the pooled roles that no roster entry fills with a numbered role. |
| DraftLogic.DraftState.GetPlayersByRole | logic/draft_logic.py:216-222 | The same roles. Each pool is ordered highest rating first, holds exactly the pool's names, and lists equally rated names in pool order. |
| DraftLogic.DraftState.LoadState | logic/draft_logic.py:351-406 | With a file missing, nothing changes. Otherwise the pools are emptied, the rows read, the teams rebuilt, and the averages recomputed, with empty history. The state is valid. |
| DraftLogic.DraftState.ReadRemainingRows | logic/draft_logic.py:363-374 | Each row's player is (re)defined with parsed roles and appended to its roles' pools. |
| DraftLogic.DraftState.GroupTeamRows | logic/draft_logic.py:376-386 | The team rows are grouped by id, in order of first appearance. |
| DraftLogic.DraftState.PlaceTeamRows | logic/draft_logic.py:388-397 | Each group's team is registered and its rows placed, in order. |
| DraftLogic.DraftState.PlaceGroup | logic/draft_logic.py:388-397 | One team of the saved file: registered, then its rows placed in order. |
| DraftLogic.DraftState.PlaceGroupRows | logic/draft_logic.py:390-397 | An unknown name is added with the row's rating. The name leaves the pools once and joins the roster. |
| DraftLogic.DraftState.PlaceTeamRow | logic/draft_logic.py:391-397 | One row: the new state is PlaceRow of the old one. The state stays known, no player is forgotten, the entry ends that team's roster and other teams are untouched. |
| DraftLogic.DraftState.RecomputeAverages | logic/draft_logic.py:399-404 | Every team's average becomes its roster's mean rating, 0 when empty. |
| StateLoading.ReadRemaining | logic/draft_logic.py:363-374 | Reading rows keeps every roster and pool name a known player, and forgets no player. |
| StateLoading.GroupingSpec | logic/draft_logic.py:376-386 | Every team id appears once in the grouping order, and exactly the ids of the rows appear. Each group holds that team's rows in file order. |
| StateLoading.PlaceRow | logic/draft_logic.py:390-397 | One row: the state stays known, no team appears or vanishes, no player is forgotten, the entry ends that team's roster and other teams are untouched. |
| StateLoading.Registering | logic/draft_logic.py:389 | A new id gets an empty team, existing teams are untouched, and the state stays known. |
| StateLoading.PlaceRowsRoster | logic/draft_logic.py:390-397 | Placing rows appends their entries to that team's roster and touches no other team. |
| StateLoading.PlaceGroupsRosters | logic/draft_logic.py:388-397 | Each new team gets exactly its group's entries; teams already present are untouched. |
| StateLoading.Averaged | logic/draft_logic.py:399-404 | Every team's roster is kept and its stored average is the roster's mean. |
| StateLoading.LoadedRosters | logic/draft_logic.py:351-406 | After loading, the teams are exactly the ids in the teams rows, and each roster lists that team's rows in file order. |

## Left out

- File I/O, CSV parsing and the YAML configuration are not modelled.
  - The rows of the player and saved-state files arrive as parameters, with fields already stripped and ratings already read by `int()`.
  - `found` stands for the existence check of `load_state`.
  - A malformed row's exception path in `load_player_data` is the same as reading the rows before it.
- `save_state`, `get_mmr_bucket_stats`, `get_role_distribution_stats`, `get_teams_data` and `example_usage.py` are not part of this model. They only write files or report statistics.
- Randomness, timers and drawing are not modelled.
  - The draws of `random.uniform` are parameters of the `Spin` methods.
  - The `after` timer, `after_cancel` and all canvas drawing are not modelled.
  - The theme manager and the colour cache that `draw_scale` fills are not modelled.
- WheelDisplayComponent.WheelDisplay.UpdateBounce states `playerColors` unchanged. The source's redraw (`draw_scale`, gui/components/wheel_display.py:63-64) fills that cache on every frame.
- WheelDisplayComponent.WheelDisplay.Spin states `playerColors` unchanged for the same reason: its first frame redraws in the source.
  - The frame loop is one call of `UpdateAnimation`/`UpdateBounce` per frame.
  - The completion callbacks' argument is returned, not called.
- `_finish_spin`'s highlighting and display are not modelled; only its selection loop is.
- Floating point is not modelled: ratings are integers, and averages, probabilities and positions are exact reals. As a result, the rescale in `compute_probabilities` never changes a sum over the reals, and round-off is not modelled.
- Membership exclusivity (no drafted player left in a pool) is not an invariant of the source, so Valid() does not include it. A pick keeps it (DraftLogic.PickKeepsExclusive). But `add_captain_to_team` (logic/draft_logic.py:225-240) puts a known player on a roster without removing them from the pools, and AddCaptainToTeam does the same. A captain who is also in a pool can therefore be drafted again later. The model follows the code and leaves the pools untouched.
- DraftLogic.ComputeProbabilitiesAsWritten assumes the configuration holds `team_size`, `role_preference_weights` and `logistic_settings` with `midpoint`, `slope` and `blend_alpha`. Python evaluates the keyword-argument subscripts (logic/draft_logic.py:157-163) before binding the call. Without those keys, for example with the empty configuration the loader returns for a missing file, the call raises KeyError before any TypeError; CallOutcome does not tell the two apart.
- DraftLogic.DraftState.ComputeProbabilities models the call with the engine's six parameters only. The call as written raises TypeError; see Findings below.
- ProbabilityEngine.ComputeProbabilities: over the reals the blended sum is `(1 - b) + b = 1` for every `b` (ProbabilitiesSumToOne), so the rescale never divides. Python can reach a zero sum only through floating-point absorption (for example `b = 1e20` with one candidate gives `-1e20 + 1e20 == 0.0`) and then raises ZeroDivisionError; that is part of the floating-point gap above. Normalize's guard against a zero sum is never taken from Probabilities.
- Text.ParseInt accepts only ASCII digits, an optional sign and underscores between digits. Python's `int()` also accepts other Unicode decimal digits.
- DraftLogic.DraftState.GetIdealMmrForPick drops the source's `role` argument, which the source never uses. `team_size` is a constant of the state, read from the configuration at start-up, instead of `config.get("team_size", 5)` at each call. It requires the team to exist, because `self.teams[team_id]` raises `KeyError` otherwise; the GUI callers check the team first.
- The docstring of `get_role_preference_factor` lists factors 1.0, 0.66 and 0.33. The model follows the code: 0.9, 0.6 and 0.1.
- A pointer resting exactly on 100 selects no one: segments are half-open and nothing clamps the position.
- DraftLogic.DraftState.PickPlayerFromPosition requires the winning team and player to exist, because the source raises `KeyError` otherwise. The same holds for a history entry's team and player in `UndoLastPick`, which Valid() guarantees. In the source, `_remove_player` has already taken the player out of every pool when `_assign_to_team` raises for an unknown team, so that partial update is not modelled. The GUI callers check the team before picking.
- ModernWheelComponent.ModernWheel.constructor keeps the friction as given, as the source does. OnScale is preserved only for friction in [0, 1].

## Findings

| source | as written | input that shows it | evidently intended | confidence | as-written member | corrected member |
|---|---|---|---|---|---|---|
| logic/draft_logic.py:150-163 | `DraftLogic.compute_probabilities` passes `team_size`, `role_preference_weights`, `logistic_midpoint`, `logistic_slope` and `blend_alpha` to `probability_calc.compute_probabilities`, which declares only six parameters (probability_calc.py:5-12), so every call past the guards raises: TypeError when the configuration holds `team_size` and the `role_preference_weights` and `logistic_settings` entries, KeyError first when it lacks them | team `radiant` with an empty roster, pool `mid` = [`anna`], `anna` rated 3000 with role `mid(1)` | call the engine with its six parameters and return its distribution | high (not executed) | DraftLogic.ComputeProbabilitiesAsWritten, DraftLogic.AsWrittenRaisesOnFirstPick | DraftLogic.DraftState.ComputeProbabilities |
