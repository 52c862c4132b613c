# Tacticus planner rule logic in Dafny

This project models four small pieces of rule logic from the Tacticus planner
and proves properties about them. The planner is a web companion for the game
Tacticus: it lists which characters are eligible for each track of a
legendary event, builds the auto-team priority list, totals each character's
event points, and evaluates personal goals.

The modules:

- `Roster`: the unit data the event rules read. It also holds lodash
  `uniqBy(_, 'name')` (the first unit of each name wins) and
  `sortBy(_, 'name')` (a stable sort).
- `Names`: the string order that `sort` uses, which is JavaScript's `<`.
- `Seqs`: `Array.prototype.filter` and subsequence facts.
- `JainZar`: the Jain Zar event. It has three tracks. Each track narrows the
  roster (alpha Xenos, beta Imperial, gamma everyone but the Orks) and then
  defines five restrictions, each with a name and a point value. A track's
  allowed units, and the event's, are the restriction lists after
  flatten, dedupe by name and sort by name.
- `JainZarProperties`: what those rules guarantee. Each restriction holds
  exactly the units its rule admits, in roster order. The exclusion rules
  and hit-count rules are complements. The allowed listings are unique,
  ascending, order-independent and stable under a second dedupe and sort.
- `LegendaryEventsPage`: `autoTeamsPriority`, an imperative method built
  from conditional pushes and proved against a filter over a fixed list of
  criteria, plus lemmas about toggling one preference. It also holds the
  personal-data store: a class whose `legendaryEvents3` dictionary
  `updateLegendaryEventTeams` changes in place.
- `OverallPointsTable`: the Points value, which is the sum of a
  character's per-event points. It shows three grids that share one column
  definition, each in descending order of Points.
- `Goals`: goal completion by type, the higher-priority filter, the
  requests passed to the day estimator (for the page total and for each
  card), and opening the edit dialog.

A character lookup that fails while the code then reads a field of the
missing character throws a TypeError in JavaScript. The model represents this
as the error `CharacterNotFound` in a `Result`.

## Model

| member | source | states |
|---|---|---|
| Seqs.Filter | src/static-data/legendary-events/jain-zar.le.ts:25 | `filter` keeps, in order, exactly the elements that pass the test, and never lengthens the list |
| Seqs.FilterCounts | src/static-data/legendary-events/jain-zar.le.ts:31 | each element that passes is kept as often as it occurs in the input; every other element is dropped entirely |
| Seqs.TwoStageFilter | src/static-data/legendary-events/jain-zar.le.ts:25-31 | filtering by the track test and then by a rule selects exactly the elements accepted by both, in the input's order and with the input's counts |
| Seqs.FilterFilter | src/components/overall-points-table/overall-points-table.tsx:44 | two stacked filters equal one filter by the conjunction of their tests |
| Seqs.FilterIdempotent | src/components/overall-points-table/overall-points-table.tsx:44 | filtering a second time by the same test changes nothing |
| Seqs.FilterDistinct | src/routes/legendary-events/legendary-events-page.tsx:67-88 | filtering a list that has no repeats gives a list that has no repeats |
| Seqs.FilterAgreeingWhereKept | src/routes/legendary-events/legendary-events-page.tsx:67-88 | two tests that agree wherever a third test holds leave the same elements that pass the third test |
| Seqs.DifferByOneElement | src/routes/legendary-events/legendary-events-page.tsx:67-88 | two repeat-free lists that agree on everything except one element, which exactly one of them holds, differ in length by one |
| Names.BeforeIrreflexive | src/static-data/legendary-events/jain-zar.le.ts:55 | no name sorts strictly before itself |
| Names.BeforeTransitive | src/static-data/legendary-events/jain-zar.le.ts:55 | the name order is transitive |
| Names.BeforeTotal | src/static-data/legendary-events/jain-zar.le.ts:55 | of two different names, one sorts before the other |
| Roster.FirstNamed | src/static-data/legendary-events/jain-zar.le.ts:55 | the first unit with a given name, or none exactly when the name does not occur |
| Roster.FirstIndexNamed | src/static-data/legendary-events/jain-zar.le.ts:55 | the position of the first unit with a given name: that unit has the name and no earlier one does; the length when no unit has it |
| Roster.UniqByNameFrom | src/static-data/legendary-events/jain-zar.le.ts:55 | `uniqBy` after some names are already taken: keeps a subsequence with distinct names, covering every name not yet taken; each kept unit is the first unit of its name, and the kept units come in the order in which their names first occur |
| Roster.UniqByName | src/static-data/legendary-events/jain-zar.le.ts:55 | `uniqBy(_, 'name')` is a subsequence with no repeated name, covers every name of the input, keeps the first unit of each name, and orders them by where each name first occurs, so a repeated unit stays at its first position |
| Roster.InsertByName | src/static-data/legendary-events/jain-zar.le.ts:55 | inserting into the sorted listing adds exactly that unit |
| Roster.SortByName | src/static-data/legendary-events/jain-zar.le.ts:55 | `sortBy(_, 'name')` is a permutation of its input |
| Roster.SortByNameAscending | src/static-data/legendary-events/jain-zar.le.ts:55 | `sortBy(_, 'name')` returns its units in ascending order of name |
| Roster.SortKeepsNamesDistinct | src/static-data/legendary-events/jain-zar.le.ts:55 | sorting adds no repeated name |
| Roster.DedupeAndSort | src/static-data/legendary-events/jain-zar.le.ts:55 | dedupe by name then sort by name gives strictly ascending names, the same name set as the input, and for each name the unit that came first |
| Roster.DedupeAndSortKeepsUnits | src/static-data/legendary-events/jain-zar.le.ts:55 | over units keyed by name, no unit is lost and none is added |
| Roster.StrictlyAscendingUnique | src/static-data/legendary-events/jain-zar.le.ts:55 | two strictly ascending listings of the same units are equal |
| Roster.DedupeAndSortIdempotent | src/static-data/legendary-events/jain-zar.le.ts:21 | a second dedupe and sort changes nothing |
| JainZar.HasRangeHits | src/static-data/legendary-events/jain-zar.le.ts:36 | `!!unit.rangeHits`: ranged hits present and nonzero; its use in the rules is stated by `JainZar.HitRulesUseEffectiveHits` and `JainZarProperties.RangedIsXenosWithRangeHits` |
| JainZar.EffectiveHits | src/static-data/legendary-events/jain-zar.le.ts:41 | the ranged hit count when it is present and nonzero, the melee hit count when it is absent or zero |
| JainZar.HitRulesUseEffectiveHits | src/static-data/legendary-events/jain-zar.le.ts:41 | the hit-count rules compare ranged hits when they are present and nonzero, and melee hits otherwise |
| JainZar.BuildTrack | src/static-data/legendary-events/jain-zar.le.ts:26-53 | each restriction is the narrowed roster filtered by its rule, carrying the rule's label and points; every listed unit comes from the narrowed roster |
| JainZar.AlphaTrack | src/static-data/legendary-events/jain-zar.le.ts:24-58 | the alpha labels and points are Physical 100, Ranged 60, Max 3 hits 45, Necrons only 110 and No Summons 60; every listed unit is a Xenos unit of the roster |
| JainZar.BetaTrack | src/static-data/legendary-events/jain-zar.le.ts:60-94 | the beta labels and points are Power 95, Bolter 95, No Blast 50, Max 2 hits 70 and No Summons 60; every listed unit is an Imperial unit of the roster |
| JainZar.GammaTrack | src/static-data/legendary-events/jain-zar.le.ts:96-130 | the gamma labels and points are No Mech 45, Piercing 100, Bolter 95, No Flying 45 and Min 4 hits 90; no listed unit is an Ork |
| JainZar.NewJainZarLegendaryEvent | src/static-data/legendary-events/jain-zar.le.ts:11-15 | the constructor sets the three tracks from the one roster, each with five restrictions |
| JainZar.UnitsOf | src/static-data/legendary-events/jain-zar.le.ts:55 | `flatMap(r => r.units)` holds exactly the units of the restrictions, with the union of their names |
| JainZar.TrackAllowedUnits | src/static-data/legendary-events/jain-zar.le.ts:54-56 | a track's allowed units have strictly ascending (so unique) names, and their name set is the union of the restrictions' name sets |
| JainZar.EventAllowedUnits | src/static-data/legendary-events/jain-zar.le.ts:17-22 | the event's allowed units have strictly ascending names, and their name set is the union of the three tracks' name sets |
| JainZarProperties.BuildTrackSelectsExactly | src/static-data/legendary-events/jain-zar.le.ts:25-53 | every restriction of a track holds exactly the roster units that pass both the track filter and its rule, in roster order and with roster counts |
| JainZarProperties.AlphaRestrictionsSelectExactly | src/static-data/legendary-events/jain-zar.le.ts:25-53 | every alpha restriction holds exactly the Xenos units its rule accepts, in roster order |
| JainZarProperties.BetaRestrictionsSelectExactly | src/static-data/legendary-events/jain-zar.le.ts:61-89 | every beta restriction holds exactly the Imperial units its rule accepts, in roster order |
| JainZarProperties.GammaRestrictionsSelectExactly | src/static-data/legendary-events/jain-zar.le.ts:97-125 | every gamma restriction holds exactly the non-Ork units its rule accepts, in roster order |
| JainZarProperties.PhysicalIsXenosWithPhysical | src/static-data/legendary-events/jain-zar.le.ts:31 | 'Physical' admits a unit if and only if it is a Xenos unit of the roster with the Physical flag |
| JainZarProperties.RangedIsXenosWithRangeHits | src/static-data/legendary-events/jain-zar.le.ts:36 | 'Ranged' admits a unit if and only if it is a Xenos unit of the roster with present, nonzero ranged hits |
| JainZarProperties.NoBlastComplementsBlast | src/static-data/legendary-events/jain-zar.le.ts:77 | 'No Blast' admits a unit if and only if it is an Imperial unit of the roster without the Blast flag |
| JainZarProperties.NoMechComplementsMech | src/static-data/legendary-events/jain-zar.le.ts:103 | 'No Mech' admits a unit if and only if it is a non-Ork unit of the roster with neither Mechanical nor LivingMetal |
| JainZarProperties.NoFlyingComplementsFlying | src/static-data/legendary-events/jain-zar.le.ts:118 | 'No Flying' admits a unit if and only if it is a non-Ork unit of the roster without Flying |
| JainZarProperties.MaxThreeHitsComplementsMinFourHits | src/static-data/legendary-events/jain-zar.le.ts:41 | a Xenos, non-Ork unit of the roster is in alpha 'Max 3 hits' if and only if it is not in gamma 'Min 4 hits' (line 123) |
| JainZarProperties.TrackNamesIndependentOfOrder | src/static-data/legendary-events/jain-zar.le.ts:54-56 | listing the same restrictions in another order gives a track the same allowed names |
| JainZarProperties.TrackAllowedUnitsAreRestrictionUnits | src/static-data/legendary-events/jain-zar.le.ts:54-56 | over a roster keyed by name, the allowed units are exactly the units some restriction admits |
| JainZarProperties.TrackAllowedUnitsIndependentOfOrder | src/static-data/legendary-events/jain-zar.le.ts:54-56 | over a roster keyed by name, the whole allowed listing, not only its names, does not depend on the order of the restrictions |
| JainZarProperties.TrackAllowedUnitsStable | src/static-data/legendary-events/jain-zar.le.ts:54-56 | a second dedupe and sort leaves a track's listing unchanged |
| JainZarProperties.EventAllowedUnitsStable | src/static-data/legendary-events/jain-zar.le.ts:17-22 | a second dedupe and sort leaves the event's listing unchanged |
| JainZarProperties.TrackOverKeyedRoster | src/static-data/legendary-events/jain-zar.le.ts:54-56 | a track over a roster keyed by name lists units keyed by name, exactly those that its restrictions admit |
| JainZarProperties.EventAllowedUnitsOverKeyedRoster | src/static-data/legendary-events/jain-zar.le.ts:17-22 | for tracks drawn from a roster keyed by name, a unit is allowed in the event if and only if some restriction of some track admits it |
| JainZarProperties.EventAllowedUnitsAreRestrictionUnits | src/static-data/legendary-events/jain-zar.le.ts:11-22 | for the event built from a roster keyed by name, a unit is allowed if and only if some restriction of some track admits it |
| LegendaryEventsPage.LabelsOf | src/routes/legendary-events/legendary-events-page.tsx:70-84 | the strings displayed are the labels of the criteria, one for one, in order |
| LegendaryEventsPage.PushedIf | src/routes/legendary-events/legendary-events-page.tsx:69-71 | a conditional push adds the criterion exactly when its condition holds, and adds at most one entry |
| LegendaryEventsPage.AutoTeamsPriority | src/routes/legendary-events/legendary-events-page.tsx:67-88 | the list the pushes build is the labels of the criteria active under the preferences, in the fixed precedence order |
| LegendaryEventsPage.LabelInjective | src/routes/legendary-events/legendary-events-page.tsx:70-84 | different criteria show different labels |
| LegendaryEventsPage.EventPointsAlwaysListed | src/routes/legendary-events/legendary-events-page.tsx:81 | 'Event points' is always listed |
| LegendaryEventsPage.ListedIffActive | src/routes/legendary-events/legendary-events-page.tsx:69-85 | a criterion is listed if and only if its preferences make it take part |
| LegendaryEventsPage.CriterionListedIffEnabled | src/routes/legendary-events/legendary-events-page.tsx:69-85 | each of the five other criteria is listed if and only if its toggle enables it |
| LegendaryEventsPage.CriteriaOrderedWithoutRepeats | src/routes/legendary-events/legendary-events-page.tsx:67-87 | the list follows the fixed precedence order, has no repeats, and has between one and six entries |
| LegendaryEventsPage.ToggleFlipsCriterion | src/routes/legendary-events/legendary-events-page.tsx:69-85 | flipping a criterion's toggle adds that criterion or removes it |
| LegendaryEventsPage.ToggleAffectsOnlyItsCriterion | src/routes/legendary-events/legendary-events-page.tsx:69-85 | a toggle changes whether its own criterion is active and nothing else |
| LegendaryEventsPage.ToggleKeepsOtherCriteria | src/routes/legendary-events/legendary-events-page.tsx:67-88 | flipping one toggle leaves the other entries as they were, in the same order |
| LegendaryEventsPage.ToggleChangesLengthByOne | src/routes/legendary-events/legendary-events-page.tsx:67-88 | flipping one toggle makes the list exactly one entry longer or one entry shorter |
| LegendaryEventsPage.InitialEvents | src/routes/legendary-events/legendary-events-page.tsx:93-97 | the dictionary created when absent has the keys JainZar, AunShi and ShadowSun, each with an empty entry |
| LegendaryEventsPage.UpdatedEvents | src/routes/legendary-events/legendary-events-page.tsx:91-103 | after the update, `data.id` holds `data` and every other key keeps its value; an absent store first gets the three empty entries |
| LegendaryEventsPage.UpdateIdempotent | src/routes/legendary-events/legendary-events-page.tsx:99-101 | saving the same data twice is the same as saving it once |
| LegendaryEventsPage.LaterSaveWins | src/routes/legendary-events/legendary-events-page.tsx:99-101 | a later save for the same event replaces the earlier one |
| LegendaryEventsPage.SavesOfDifferentEventsCommute | src/routes/legendary-events/legendary-events-page.tsx:99-101 | saves for different events commute |
| LegendaryEventsPage.PersonalData.constructor | src/routes/legendary-events/legendary-events-page.tsx:92 | the store starts with the dictionary it was loaded with, possibly absent |
| LegendaryEventsPage.PersonalData.UpdateLegendaryEventTeams | src/routes/legendary-events/legendary-events-page.tsx:91-103 | the new dictionary is the function `UpdatedEvents` of the old: `data.id` holds `data` and every other existing key is unchanged |
| OverallPointsTable.MapSumRemove | src/components/overall-points-table/overall-points-table.tsx:19 | the sum of the map's values does not depend on which key is taken first, so the order of `Object.values` does not matter |
| OverallPointsTable.SumOverIsMapSum | src/components/overall-points-table/overall-points-table.tsx:19 | summing over any repeat-free list that covers every key gives the sum of the map's values |
| OverallPointsTable.Points | src/components/overall-points-table/overall-points-table.tsx:19 | Points is the sum of all values of the per-event points map; an empty map gives 0 |
| OverallPointsTable.InsertByPoints | src/components/overall-points-table/overall-points-table.tsx:22 | inserting a row into the sorted rows adds exactly that row |
| OverallPointsTable.SortByPointsDesc | src/components/overall-points-table/overall-points-table.tsx:22 | the descending sort is a permutation of the rows |
| OverallPointsTable.InsertKeepsDescending | src/components/overall-points-table/overall-points-table.tsx:22 | inserting into rows in descending order of Points keeps them in that order |
| OverallPointsTable.SortByPointsDescIsDescending | src/components/overall-points-table/overall-points-table.tsx:22 | the sort leaves rows in descending order of Points |
| OverallPointsTable.SortOfDescending | src/components/overall-points-table/overall-points-table.tsx:22 | rows already in descending order of Points come out unchanged |
| OverallPointsTable.SortByPointsDescStable | src/components/overall-points-table/overall-points-table.tsx:22 | the sort is stable: for every Points value, the rows with that value come out in their input order |
| OverallPointsTable.RowOf | src/components/overall-points-table/overall-points-table.tsx:11-24 | the row for a character shows that character and, as Points, the sum of its per-event points |
| OverallPointsTable.RowsOf | src/components/overall-points-table/overall-points-table.tsx:11-24 | one row per character of the row data, in order, each showing that character's Points |
| OverallPointsTable.Grid | src/components/overall-points-table/overall-points-table.tsx:11-31 | a grid is in descending order of Points and is a permutation of the rows of its row data; a row appears exactly when its character is in the row data with its own Points |
| OverallPointsTable.BestOverall | src/components/overall-points-table/overall-points-table.tsx:29-39 | 'Best characters overall' is in descending order of Points with one row per character, and a row appears exactly when it is the row of a roster character |
| OverallPointsTable.YourBest | src/components/overall-points-table/overall-points-table.tsx:42-53 | 'Your Best characters' is in descending order of Points, and a row appears exactly when it is the row of an unlocked roster character (see also `OverallPointsTable.YourBestRows`) |
| OverallPointsTable.SelectedBest | src/components/overall-points-table/overall-points-table.tsx:56-66 | 'Selected Best characters' is in descending order of Points, and a row appears exactly when it is the row of a roster character flagged for an event (see also `OverallPointsTable.SelectedBestRows`) |
| OverallPointsTable.UnlockedRowDataExact | src/components/overall-points-table/overall-points-table.tsx:44 | the 'Your Best' row data is exactly the unlocked characters, in input order and with input counts |
| OverallPointsTable.SelectedRowDataExact | src/components/overall-points-table/overall-points-table.tsx:59 | the 'Selected Best' row data is exactly the characters whose event selection is not None, in input order and with input counts |
| OverallPointsTable.UnlockedFilterIdempotent | src/components/overall-points-table/overall-points-table.tsx:44 | applying the unlocked filter twice is the same as applying it once |
| OverallPointsTable.SelectedFilterIdempotent | src/components/overall-points-table/overall-points-table.tsx:59 | applying the selection filter twice is the same as applying it once |
| OverallPointsTable.FilteredGridsAreSubgrids | src/components/overall-points-table/overall-points-table.tsx:31-59 | every row of the two filtered grids is a row of the full grid |
| OverallPointsTable.YourBestRows | src/components/overall-points-table/overall-points-table.tsx:44 | a character appears in 'Your Best' if and only if it is an unlocked character of the roster, and then with the same Points as in the full grid |
| OverallPointsTable.SelectedBestRows | src/components/overall-points-table/overall-points-table.tsx:59 | a character appears in 'Selected Best' if and only if it is a roster character flagged for an event, and then with the same Points as in the full grid |
| Goals.FindCharacter | src/routes/goals/goals.tsx:137 | `find` by name returns the first character with that name, or nothing exactly when no character has it |
| Goals.IsGoalCompleted | src/routes/goals/goals.tsx:137-144 | completion is an error exactly when a goal of a named type has no character; goals of any other type are never complete; a complete goal has its character on the roster |
| Goals.AtLeast | src/routes/goals/goals.tsx:140-141 | `value >= target!`, false when the target is undefined; stated for the goal types by `Goals.CompletionByType` |
| Goals.CompletionByType | src/routes/goals/goals.tsx:140-142 | an UpgradeRank goal is complete if and only if its target rank is given and the character's rank reaches it; an Ascend goal, likewise for rarity; an Unlock goal, if and only if the rank is above Locked |
| Goals.HigherPriorityGoals | src/routes/goals/goals.tsx:118 | the higher-priority goals are exactly the goals of the same type with strictly smaller priority, in order and each as often as in the list, never the goal itself |
| Goals.HigherPriorityAsymmetric | src/routes/goals/goals.tsx:118 | if one goal outranks another, the second does not outrank the first |
| Goals.HigherPriorityTransitive | src/routes/goals/goals.tsx:118 | goals that outrank an outranking goal also outrank the goal |
| Goals.RangeFor | src/routes/goals/goals.tsx:29-40 | a request exists if and only if the goal's character is found; it runs from the character's rank to the goal's target rank, with the character's upgrades |
| Goals.FoundRanges | src/routes/goals/goals.tsx:150-162 | one request per goal whose character is found, in goal order; goals without a character are dropped |
| Goals.FoundRangesFromGoals | src/routes/goals/goals.tsx:150-162 | every request comes from a goal of the list whose character is found |
| Goals.TotalRequests | src/routes/goals/goals.tsx:26-41 | the requests for the total are one per UpgradeRank goal whose character is found, in goal order |
| Goals.TotalRequestsExact | src/routes/goals/goals.tsx:27-41 | each request for the total belongs to an UpgradeRank goal with a found character, starting at that character's rank and ending at the goal's target rank |
| Goals.CardRequests | src/routes/goals/goals.tsx:150-181 | a card's requests are its found higher-priority requests followed by exactly one request for its own character; a missing own character is an error |
| Goals.EstimatedDays | src/routes/goals/goals.tsx:146-185 | 0 for any goal that is not UpgradeRank; otherwise the estimate of the card's requests, or an error when the goal's character is missing |
| Goals.GoalCard | src/routes/goals/goals.tsx:137-185 | a card fails exactly when its goal's character is missing, whatever the goal type; otherwise it shows the completion flag and the estimated days, which are 0 for a goal that is not UpgradeRank |
| Goals.CardRequestsComeFromHigherGoals | src/routes/goals/goals.tsx:118-162 | on a card, every request except the last belongs to a same-type goal with strictly smaller priority |
| Goals.CompletedIffNothingLeftToUpgrade | src/routes/goals/goals.tsx:140-181 | an UpgradeRank goal is complete if and only if the card's own request already starts at or beyond its end |
| Goals.EditGoal | src/routes/goals/goals.tsx:69-79 | editing opens only when the character is found; the copy overrides current rank, current rarity and upgrades from that character and keeps every other field |
| Goals.EditGoalIdempotent | src/routes/goals/goals.tsx:69-79 | editing the edited copy again gives the same dialog |

## Left out

- All rendering and React machinery is UI and is not modelled. This covers the MUI and AgGrid components, tabs, popovers, dialogs, `useState`, `useMemo`, `useContext` and `confirm()`.
- The days memo's dependency list (src/routes/goals/goals.tsx:185) reads `character.name` and `character.rank` on every render, so a card whose character is missing throws whatever its goal type. `Goals.GoalCard` models that failure. `Goals.IsGoalCompleted` and `Goals.EstimatedDays` describe only the two memo callbacks.
- Goal deletion from the menu is a store dispatch and is not modelled.
- The auto-team selection algorithm is not modelled. Only the priority names that the page displays are part of this model.
- The day estimator `getRankUpgradeEstimatedDays` is code that is not shown. `Goals.EstimatedDays` takes it as a parameter that maps the requests to a natural number, standing for `raids.length`. The page total hands the same estimator `TotalRequests`.
- `PersonalDataService.save()` is persistence and is treated as doing nothing. `PersonalDataService.data` is modelled as the `PersonalData` object passed to the update; global state and `GlobalService.characters` are not modelled.
- LegendaryEventsPage.LegendaryEventData: the event data payload is modelled only by its `id` and an opaque team map, because the update reads nothing else.
- src/shared-components/upgrade-image.tsx is not part of this model. It is dynamic image loading and UI.
- src/static-data/interfaces.ts holds only type declarations. `Roster.Unit` takes the shape of `UnitData` from it, but drops `factionColor`, `numberAdded`, `rangeDistance` and `movement` because no rule reads them. Of the `Partial<PersonalCharacterData>` fields it keeps only `forcedSummons`, for the same reason.
- Numeric enum values are not modelled. Damage types and traits are sets of named flags, since every mask the rules test is one flag. Factions other than Necrons and Orks, and flags the rules do not name, are kept apart only by name.
- `forcedSummons` comes from the partial personal data and may be absent. Absent reads as false, as `!undefined` is `true`.
- JavaScript numbers are modelled as unbounded integers, so NaN, infinities and fractions are out of scope. Ranks and rarities are their ordinals, with `Rank.Locked` as 0.
- Names.Before compares Unicode characters one at a time. JavaScript compares UTF-16 code units, which can differ for characters outside the Basic Multilingual Plane.
- The page calls a two-argument `JainZarLegendaryEvent` from another module (src/routes/legendary-events/legendary-events-page.tsx:7,24). This model follows the one-argument class in jain-zar.le.ts.
- The Aun Shi and Shadow Sun events are not part of this model. Only their keys in the store are.
- The Rank cell class and tooltip of the points table (src/components/overall-points-table/overall-points-table.tsx:15-16) are presentation, and are not modelled.
- OverallPointsTable.SortByPointsDesc is a stable sort, so rows with equal Points keep their input order (`OverallPointsTable.SortByPointsDescStable`). The grid library's own sort is not shown. The model assumes it is stable too.
- JainZar.NewJainZarLegendaryEvent states its tracks through `AlphaTrack`, `BetaTrack` and `GammaTrack`. The membership properties of their restrictions are lemmas in `JainZarProperties`.
- Goals.CompletionByType: the completion memo runs once, with an empty dependency list (src/routes/goals/goals.tsx:144). The model evaluates completion on the current roster and does not model that staleness.
