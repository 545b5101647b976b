# Phobics seating puzzle: a Dafny model of the game engine

The game is a seating puzzle. A board is a grid of empty cells, table cells and chairs. Connected chairs and table cells form a table. Guests come in eight colours ("phobias"), and a guest may be afraid of one colour. A guest panics when a guest of that colour covers its chair: a table-scoped colour covers every chair of its table, any other colour covers the chairs above, below and across. Every guest at a table of exactly thirteen is unhappy too. The player moves guests until nobody waits and everybody sits calmly at a table.

The model covers the engine behind that:

- **Board construction.** `BaseField` builds the cell grid from a grid of cell types. Its flood fill groups orthogonally connected chairs and table cells into tables, and it numbers them in discovery order. The cells live in an array, because the game writes `tableIndex` into shared cell objects.
- **Distress evaluator.** `Checks.CheckTableStates` recomputes each guest's coverage, its thirteen-guests flag, who affects it and whether it panics. `Checks.Evaluate` specifies that result pass by pass, and the board queries sit beside it.
- **Par estimate.** `Par` collects the guests linked by aversions into chains and splits each chain greedily into two virtual tables. The estimate is the cheaper label mismatch per chain, plus the guests whose neighbour-scoped aversion is triggered. The loops are proved equal to a recursive definition of the split, `Par.SplitChains`, whose chains are shown closed under conflicts and connected. `ParExamples` works the split out for a board of two guests.
- **Game setup.** `Initialize` holds the seat search (`isTriggeringPhobia`, `findValidChair`), guest generation with its random inputs supplied, the bounded regeneration, and the split into waiting and seated guests with the move metadata.
- **Moves and the click controller.**
  - `GameLogic` models the person operations: moving, seating and returning a guest.
  - `GameField.GameFieldState` models the click handler's selection state machine and the move counter.
  - `GameField.UpdateState` evaluates the board and reports the win flag.
- **Small state.**
  - `Onboarding`: the tutorial step counter and the Caesar re-colouring of the tutorial levels.
  - `Phobias`: sampling colours with exclusions.
  - `Difficulties`: the difficulty tiers and the per-tier statistics, stored as a comma-joined triple.
  - `Globals`: the shared game state.
  - `ScoreFormat`: the zero-padded score.

Some decisions about how the model represents the game:

- **Random choices become inputs.** Random picks, shuffles and `Math.random` rolls are parameters, with preconditions that keep them in range.
- **Mutable state.** State the game changes in place is a class:
  - `Globals.GameGlobals` for `globals`;
  - `GameField.GameFieldState` for the component's module state;
  - `Storage.LocalStorage` for the browser store.
- **Persons are values.** A person object that the game mutates is a value, and the lists holding persons are fields that the methods reassign.
- **The selection is an index.** `clickedCell`, which holds a person object, is a position in `placedPersons`.
- **`affectedBy` holds indices.** In the game it lists person objects; in the model it lists positions in the placed list.
- **Table scope is a parameter.** `isTablePhobia` is not defined in `src/phobia.ts`, so which colours are table-scoped is a set every caller supplies.
- **Numbers.** JavaScript numbers are `JsValues.JsNumber`: an integer, or NaN for every other value.

Where the files of this snapshot disagree with one another, the model follows the code that runs:

- **The board is a record.** `GameFieldData` is declared as `Cell[][]` in `src/types.ts:67`, but the evaluator reads `allCells` and `tableAssignments`. The model uses the record `{allCells, field, tableAssignments}` built at `src/logic/base-field.ts:62-66`.
  - The functions that index the board as a grid (`getGameFieldData`, `randomlyApplyCharactersOnBoard`, `cellClickHandler`) use its `field` part.
- **One person type.** A single `Person` carries:
  - `phobia`, which the evaluator, the par estimate and the tutorial levels use;
  - `fear` and `smallFear`, which generation and the seat search use;
  - `affects` and `affectedBy`.
- **Ids are optional.** `BasePerson.id` is declared as a number, but `generatePerson` sets none, so ids are `Option<int>`.
- **Two-argument win check.** `updateState` calls `getHappyStats` with the waiting list missing. The model uses the declared two-argument form.
- **Settings without the fear chances.** `Settings` declares `chanceForBigFear`/`chanceForSmallFear`, but `difficultySettings` (`src/logic/difficulty.ts:20-45`) gives only `chanceForTablePhobia`. The model keeps the table's values.
  - `generateCharactersForGame` therefore reads both chances as undefined. `generatePerson` compares the roll with `1 - undefined` and with `undefined`, which is false whatever the roll.
  - So no generated guest has a fear or a small fear, and `findValidChair` takes the first free chair. `Initialize.GeneratePerson` takes each chance as an `Option`, and `Initialize.GeneratedGuestsFearless` and `Initialize.FearlessTakesFirstFreeChair` state the consequence.
- **`tableHeight`.** `getGameFieldData` reads `onboardingData.tableHeight`, which the onboarding data does not declare. That value only feeds CSS and is left out.

## Model

| member | source | states |
|---|---|---|
| Phobias.PhobiasDistinct | src/phobia.ts:14 | the catalogue has eight pairwise different colours and contains every colour |
| Phobias.GetPhobiaName | src/phobia.ts:44-58 | the name is empty exactly when there is no phobia |
| Phobias.PhobiaNameInjective | src/phobia.ts:22-31 | different colours have different display names |
| Phobias.PhobiaName | src/phobia.ts:22-31 | each colour's display name, as the name table lists it |
| Phobias.GetRandomPhobia | src/phobia.ts:60-62 | the pick is a member of the pool |
| Phobias.RemainingPool | src/phobia.ts:65 | a colour remains exactly when it is in the pool and not excluded |
| Phobias.GetRandomPhobiaExcluding | src/phobia.ts:64-67 | the pick is a pool member that is not excluded; there is none exactly when every pool member is excluded |
| Types.CellTypesExclusive | src/types.ts:78-82 | every cell type is exactly one of table, chair and empty |
| Types.IsTable | src/types.ts:80 | the cell type is the table type |
| Types.IsChair | src/types.ts:81 | the cell type is the chair type |
| Types.IsEmpty | src/types.ts:82 | the cell type is the empty type |
| Types.IsEmptyChair | src/types.ts:84-86 | the cell is a chair and no placed guest stands on it |
| Types.IsAtTable | src/types.ts:88-90 | a table index is set |
| Types.HasPerson | src/types.ts:92-94 | some placed guest stands on the position |
| Types.IsSameCell | src/types.ts:112-114 | the rows and the columns are equal |
| Types.SameCellIsEquivalence | src/types.ts:112-114 | `isSameCell` is reflexive, symmetric and transitive |
| Types.FindPersonIndex | src/types.ts:96-98 | the index found is the first guest on the position; there is none exactly when no guest stands there |
| Types.FindPerson | src/types.ts:92-98 | a guest is found exactly when `hasPerson` holds, and the guest found stands on the position |
| Types.PushCellIfNotInList | src/types.ts:116-120 | the list stays the same exactly when the position is already taken, otherwise it grows by that one entry; afterwards the position is in the list, and distinct positions stay distinct |
| JsValues.NumberRoundTrip | src/logic/difficulty.ts:72 | reading a printed number with `Number` gives the number back, NaN included |
| JsValues.SplitJoin | src/logic/difficulty.ts:72-83 | splitting joined pieces that contain no separator gives the pieces back |
| JsValues.NumberHasNoComma | src/logic/difficulty.ts:83 | a printed number never contains a comma |
| JsValues.ParseNumber | src/globals.ts:46 | a negative result comes only from text with a leading minus sign |
| Storage.Lookup | src/globals.ts:18-19 | an entry is found exactly when the key is stored, and it is the stored text |
| Storage.LocalStorage.Get | src/logic/difficulty.ts:68 | the entry read under a key is present exactly when the key is stored, and it is the stored text |
| Storage.LocalStorage.Set | src/logic/difficulty.ts:83 | only the entry under the key changes, and reading it gives the written text |
| Difficulties.FromNumber | src/globals.ts:21-22 | only 0, 1, 2 and 3 name a tier, and a tier's number names it again |
| Difficulties.OrdRoundTrip | src/logic/difficulty.ts:5-10 | a tier's number names the tier itself |
| Difficulties.DifficultySettings | src/logic/difficulty.ts:20-45 | every tier has 0 < minAmount ≤ maxAmount and 0 < minInitialPanic < minAmount |
| Difficulties.SettingsMonotone | src/logic/difficulty.ts:20-45 | a harder tier never asks for fewer guests or fewer initially waiting guests |
| Difficulties.StorageKeysDistinct | src/logic/difficulty.ts:86-97 | different tiers store under different keys |
| Difficulties.StorageKeyFor | src/logic/difficulty.ts:86-97 | each tier's own statistics key, never the step key or the tier key |
| Difficulties.RoundDiv | src/logic/difficulty.ts:81 | the result is the quotient rounded to nearest with halves up, and NaN exactly when an operand is NaN or the divisor is 0 |
| Difficulties.UpdatedStats | src/logic/difficulty.ts:80-83 | with a stored count, the count grows by one; with a stored highscore, the new highscore is the larger of it and the score |
| Difficulties.UpdatedStatsMeaning | src/logic/difficulty.ts:77-84 | for well-formed statistics the count grows by one, the highscore is at least the old highscore and the score, and the average is the rounded running average |
| Difficulties.StatsRoundTrip | src/logic/difficulty.ts:72-83 | serialising a statistics triple and parsing it back gives the same triple |
| Difficulties.SerializeStats | src/logic/difficulty.ts:83 | the highscore, average and count joined with commas |
| Difficulties.ParseStats | src/logic/difficulty.ts:72-74 | the stored text split at commas, each piece read with `Number`, a missing piece NaN |
| Difficulties.GetDifficultyStats | src/logic/difficulty.ts:67-75 | a tier without a non-empty entry reads as zeros |
| Difficulties.SetDifficultyStats | src/logic/difficulty.ts:77-84 | only the tier's entry changes, and reading it back gives the updated statistics |
| Difficulties.CountAfterGames | src/logic/difficulty.ts:80 | after k games the stored count has grown by exactly k |
| Globals.SettingsFor | src/globals.ts:22 | a number has settings exactly when it names a tier, and they are that tier's settings |
| Globals.StoredNumberRoundTrip | src/globals.ts:18-26 | a number written to the store reads back as the same number |
| Globals.FreshStoreDefaults | src/globals.ts:21-34 | with nothing stored, the game starts at onboarding step 0 on the easy tier's settings |
| Globals.StoredDifficultyReloads | src/globals.ts:19-22 | a tier set with `setDifficulty` is the initial tier, with its settings, at the next load |
| Globals.StoredStepReloads | src/globals.ts:26 | a stored onboarding step is the initial step at the next load |
| Globals.GetNumFromParam | src/globals.ts:42-50 | an absent or empty parameter gives the fallback; a present one gives its value read with `Number` when that is a number, and the fallback when it is NaN |
| Globals.ParamRoundTrip | src/globals.ts:42-50 | a parameter that spells an integer yields that integer |
| Globals.GameGlobals.constructor | src/globals.ts:24-36 | every field holds its default, and the settings match the difficulty |
| Globals.GameGlobals.ResetGlobals | src/globals.ts:38-40 | every field `defaultGlobals` lists is back at its default, and `metaData` keeps its value |
| Globals.GameGlobals.SetDifficulty | src/globals.ts:52-56 | the tier and its settings change together, the tier number is stored, and nothing else changes |
| Onboarding.IsOnboarding | src/logic/onboarding.ts:17-19 | the step is not -1 |
| Onboarding.WasOnboarding | src/logic/onboarding.ts:21-23 | still in the tutorial, or a previous step is recorded |
| Onboarding.NextOnboardingStep | src/logic/onboarding.ts:95-99 | steps below 2 advance by one, step 2 and beyond give -1, and NaN stays NaN |
| Onboarding.TutorialEnds | src/logic/onboarding.ts:95-101 | from step s the counter passes s+1, …, 2 and reaches -1 after exactly 3 − s increments |
| Onboarding.IncreaseOnboardingStepIfApplicable | src/logic/onboarding.ts:87-103 | outside the tutorial only the previous step is cleared; inside it, the old step is recorded and the next step is set and stored; nothing else changes |
| Onboarding.LastLevelLeavesTutorial | src/logic/onboarding.ts:97-99 | the step after the last level is -1 |
| Onboarding.GetCesarEmoji | src/logic/onboarding.ts:242-245 | the colour sits at position (cesar + index) mod 8 of the catalogue |
| Onboarding.CesarKeepsParity | src/logic/onboarding.ts:242-245 | an even shift keeps the parity of a colour's position |
| Onboarding.CesarInjective | src/logic/onboarding.ts:242-245 | for one shift, two catalogue positions give the same colour only if they are equal |
| Onboarding.Mapping | src/logic/onboarding.ts:231-240 | the id is the index, the colours are shifted, and there is a phobia exactly when the definition has one |
| Onboarding.MappingKeepsConflicts | src/logic/onboarding.ts:231-240 | who fears whom is the same before and after the shift |
| Onboarding.GetPersonsFromIndexedDefinitions | src/logic/onboarding.ts:216-229 | each guest is the mapping of its definition under twice the pick, numbered from 0 in each list, and seated guests keep their chairs |
| Onboarding.TableIndexOf | src/logic/onboarding.ts:116-141 | a tutorial level's table index is 0 or 1, and always 0 for the first level |
| Onboarding.LevelDefinitionsValid | src/logic/onboarding.ts:105-167 | every colour index in the tutorial levels is a catalogue position |
| Onboarding.IntroSeatsOnChairs | src/logic/onboarding.ts:105-120 | the first level's seated guest sits on a chair |
| Onboarding.BothPhobiasSeatsOnChairs | src/logic/onboarding.ts:122-142 | the second level's seated guests sit on distinct chairs |
| Onboarding.ResortSeatsOnChairs | src/logic/onboarding.ts:144-167 | the third level's seated guests sit on distinct chairs |
| Onboarding.GetOnboardingData | src/logic/onboarding.ts:70-85 | there is a level exactly for steps 0, 1 and 2; each level has one waiting guest; the first level puts every seat at table 0 and has no par; the third has par 2 |
| Onboarding.WaitingGuestFearsSomeone | src/logic/onboarding.ts:105-167 | under every shift, each level's waiting guest fears the colour of a seated guest |
| Checks.AdjacencySymmetric | src/logic/checks.ts:60-97 | both adjacencies are symmetric and never relate a cell to itself |
| Checks.GetCellNeighbors | src/logic/checks.ts:86-97 | exactly the listed cells directly above, below, left or right; never the cell itself |
| Checks.GetChairNeighbors | src/logic/checks.ts:60-68 | exactly the table's chairs above, below or in the same row; never the cell itself |
| Checks.GetNeighbors | src/logic/checks.ts:71-83 | exactly the guests with the same table index above, below or in the same row; never one on `self`'s cell |
| Checks.GetGuestsOnTable | src/logic/checks.ts:142-144 | exactly the guests with that table index |
| Checks.GetTableCells | src/logic/checks.ts:138-140 | exactly the board's table cells with that table index |
| Checks.GetNearestTableCell | src/logic/checks.ts:99-103 | a table cell of the chair's table in the chair's row; none exactly when that table has no cell in the row |
| Checks.GetHappyGuests | src/logic/checks.ts:113-119 | exactly the guests at a table without panic and without the thirteen-guests flag |
| Checks.IsHappy | src/logic/checks.ts:113-115 | the guest is at a table, without panic and without the thirteen-guests flag |
| Checks.GetEmptyChairs | src/logic/checks.ts:121-123 | exactly the board's chairs nobody stands on |
| Checks.GetHappyStats | src/logic/checks.ts:125-136 | the total counts the placed and the waiting guests; the game is won exactly when nobody waits and every placed guest is happy |
| Checks.AllHappyCount | src/logic/checks.ts:129 | the happy guests are as many as the guests exactly when every guest is happy |
| Checks.Coverage | src/logic/checks.ts:29-31 | a table-scoped guest covers every other chair of its table; any other covers exactly its chair neighbours; nobody covers its own cell |
| Checks.Evaluate | src/logic/checks.ts:16-53 | the result has one entry per guest, and evaluation never changes a guest's identity, position or table index |
| Checks.EvaluateKeepsCoverage | src/logic/checks.ts:28-50 | the coverage after evaluation is the coverage computed at the table |
| Checks.EvaluateAtKnownTable | src/logic/checks.ts:19-33 | a guest at a known table covers what its colour reaches, and has the thirteen-guests flag exactly when its table holds exactly 13 guests |
| Checks.EvaluateOffTable | src/logic/checks.ts:19-33 | a guest whose table index names no table keeps its old coverage, and at a table also its old flag |
| Checks.EvaluateRoomGuest | src/logic/checks.ts:45-50 | a guest away from every table ends calm, without the flag and affected by nobody |
| Checks.EvaluatePanic | src/logic/checks.ts:36-43 | a guest at a table is affected by exactly the guests covering its cell, and panics exactly when one of them has the colour it fears |
| Checks.EvaluateIdempotent | src/logic/checks.ts:16-53 | evaluating twice gives the same guests as evaluating once |
| Checks.PanickedTableCells | src/logic/checks.ts:22-26 | exactly the table cells of tables holding exactly 13 guests |
| Checks.CheckTableStates | src/logic/checks.ts:16-53 | the updated guests are `Evaluate`'s, and the returned cells are those of the tables of thirteen |
| Checks.CoverTables | src/logic/checks.ts:19-34 | the table loop gives every guest at a known table its coverage and flag |
| Checks.CoverTable | src/logic/checks.ts:28-33 | the guests of the table get their coverage and the table's flag; the others are unchanged |
| Checks.JudgeGuests | src/logic/checks.ts:36-43 | every guest gets who affects it and whether it panics |
| Checks.ClearRoomGuests | src/logic/checks.ts:45-50 | the guests without a table are reset; the others are unchanged |
| BaseField.BuildField | src/logic/base-field.ts:32-44 | the grid has the type grid's shape, and the cell at row r, column c has that position, that type and no table index |
| BaseField.GetNeighborsRecursively | src/logic/base-field.ts:91-100 | the list only grows, by chairs and table cells and without repeats; it is closed under adjacency at the start cell and at every cell it added, and each added cell is adjacent to an earlier one |
| BaseField.SplitIntoTables | src/logic/base-field.ts:69-89 | only table indices change; a cell has an index exactly when it is a chair or a table cell, and that index is the one group holding it; every group is non-empty, closed under adjacency and connected; groups are numbered in discovery order, each group's first slot being its smallest and coming before the first slot of every later group |
| BaseField.WalkCell | src/logic/base-field.ts:74-85 | one cell of the walk keeps the bookkeeping: the cells walked so far are numbered, and the groups stay in discovery order |
| BaseField.StartGroup | src/logic/base-field.ts:83-85 | a new group is flood-filled from the cell and numbered next, starting at the cell, which comes before all its other cells; cells already numbered are unchanged, and discovery order is kept |
| BaseField.JoinGroup | src/logic/base-field.ts:78-80 | a cell already in a group keeps that group's index, and nothing else changes |
| BaseField.HeldSlot | src/logic/base-field.ts:76-77 | with positions unique, the group found to hold a cell at the slot's position holds the slot |
| BaseField.UnheldSlot | src/logic/base-field.ts:76-83 | a cell that no group holds is in no group, so the walk starts a new group from it |
| BaseField.FilterIncreasing | src/logic/base-field.ts:70 | filtering a list in board order keeps it in board order |
| BaseField.NumberedInBoardOrder | src/logic/base-field.ts:69-89 | every cell of table h > 0 comes after some cell of table h − 1 in board order |
| BaseField.WriteTableIndex | src/logic/base-field.ts:84 | exactly the group's cells get the index |
| BaseField.Cands | src/logic/base-field.ts:70 | exactly the chairs and table cells, without repeats, in board order |
| BaseField.MinColumn | src/logic/base-field.ts:51-52 | the smallest column among the cells |
| BaseField.FirstTableCell | src/logic/base-field.ts:51-52 | a table cell in the leftmost column; none exactly when there are no table cells |
| BaseField.SplitWithoutLoss | src/logic/base-field.ts:49-50 | a group without empty cells splits into its table cells and its chairs with no cell lost |
| BaseField.MakeAssignment | src/logic/base-field.ts:48-60 | the index is the group's number; a cell is listed as a table cell (a chair) exactly when it is a cell of the group of that type, with no cell lost; the first table cell is a table cell in the leftmost column, and is absent exactly when there are no table cells |
| BaseField.Assignments | src/logic/base-field.ts:48 | one assignment per group, numbered in order |
| BaseField.FlattenOrdered | src/logic/base-field.ts:46 | flattening the grid gives cells in strictly increasing row-major order |
| BaseField.GetGameFieldDataFromBaseField | src/logic/base-field.ts:31-67 | see the first list below |
| Par.ConflictsSymmetric | src/logic/par.ts:68-70 | two guests conflict in either order or in neither |
| Par.CanAddToTable | src/logic/par.ts:68-70 | a guest may join a virtual table exactly when nobody there is of the type it fears or fears its type |
| Par.AddKeepsConflictFree | src/logic/par.ts:17-19 | a guest that passes `canAddToTable`, pushed onto a virtual table free of conflicts, keeps it free of conflicts |
| Par.WithBigFear | src/logic/par.ts:6 | exactly the guests with an aversion; none when no guest has one |
| Par.Triggering | src/logic/par.ts:7 | exactly the guests of a type some guest fears |
| Par.RelevantBigFear | src/logic/par.ts:8 | exactly the guests whose feared type sits on the board |
| Par.InvolvedPersons | src/logic/par.ts:6-9 | a guest is involved exactly when it conflicts with some guest; nobody is involved when no guest has an aversion |
| Par.Matches | src/logic/par.ts:20 | exactly the remaining guests in conflict with the current guest |
| Par.Remaining | src/logic/par.ts:21 | exactly the guests whose position is not among the related guests |
| Par.GetChainsAndSplitToTables | src/logic/par.ts:5-27 | both loops end, and the chains are exactly those of `Par.SplitChains`, the recursion that pops the last involved guest and grows its chain; so every involved guest's position is in some chain, each chain holds involved guests only with virtual table 0 non-empty and free of conflicts and every table-1 guest in conflict with table 0, no guest of one chain conflicts with a guest of another, and, when no two guests share a cell, each chain is connected through conflicts from its seed |
| Par.GrowChain | src/logic/par.ts:15-22 | the inner loop ends, and its chain and remaining involved guests are exactly those of `Par.GrowFrom` from an empty chain with the popped guest as the only related guest |
| Par.StepChainOk | src/logic/par.ts:16-19 | pushing the current guest onto table 0 when nobody there conflicts with it, and onto table 1 otherwise, keeps table 0 non-empty and free of conflicts and keeps every table-1 guest in conflict with table 0 |
| Par.GrowFrom | src/logic/par.ts:15-22 | the remaining involved guests never grow and are drawn from those given |
| Par.SplitChainsOk | src/logic/par.ts:5-27 | the split covers every involved position, its chains are well formed, hold no more entries than there are involved guests, and are pairwise free of conflicts |
| Par.GrowApart | src/logic/par.ts:20-21 | a chain whose guests conflict with none of the remaining involved guests, once grown, still conflicts with none of those left: every guest in conflict with it was pulled in |
| Par.SplitApart | src/logic/par.ts:12-24 | when the finished chains conflict neither with one another nor with the guests still involved, the outer loop's chains conflict pairwise with none |
| Par.SplitChainsConnected | src/logic/par.ts:5-27 | when no two guests share a cell, every chain lists its guests in an order where each guest after the seed conflicts with an earlier one |
| Par.GetMismatchCount | src/logic/par.ts:59-64 | never more than the chain's size |
| Par.MismatchCountsComplement | src/logic/par.ts:59-64 | when every guest of the chain sits at table 0 or 1, the two labelings' mismatches add up to the chain's size |
| Par.ChainCostBound | src/logic/par.ts:36-39 | the cheaper labeling costs at most the chain's size, and at most half of it when everybody sits at table 0 or 1 |
| Par.ChainsCostBound | src/logic/par.ts:34-40 | the summed cost is at most the chains' entries, and at most half of them when every involved guest sits at table 0 or 1 |
| Par.ChainsParBound | src/logic/par.ts:29-40 | chains built from the involved guests cost at most their number, at most half when all sit at table 0 or 1, and nothing when no guest has an aversion |
| Par.GetPersonsWithRegularPhobiaTriggered | src/logic/par.ts:48-57 | exactly the guests without a table-scoped aversion that have a chair neighbour at their table of the feared type |
| Par.SumChainCosts | src/logic/par.ts:34-40 | the loop's total is the sum over the chains of the cheaper labeling's mismatches |
| Par.SimplifiedCalculateParViaChains | src/logic/par.ts:29-46 | the par is the summed cheaper-labeling cost of the chains of `Par.SplitChains` (which `Par.GetChainsAndSplitToTables` returns) plus the triggered-neighbour count; hence it lies between the triggered-neighbour count and that count plus the involved guests; the chain part is at most half of the involved guests when they all sit at table 0 or 1; no aversion on the board gives 0 |
| Par.HasTablePhobia | src/logic/par.ts:50 | a guest without an aversion has no table-scoped one; otherwise it has one exactly when its aversion's type is among the table-scoped types |
| Par.TablePhobiaNotTriggered | src/logic/par.ts:48-52 | a guest whose aversion is table-scoped is never counted among the triggered neighbours |
| ParExamples.PairInvolved | src/logic/par.ts:6-9 | on a board of two guests, one averse to the other's type, both are involved: the averse guest, then the guest it fears |
| ParExamples.PairSplit | src/logic/par.ts:12-24 | those two guests form one chain: the feared guest (popped first) at virtual table 0, the averse guest at table 1 |
| ParExamples.PairCostsOne | src/logic/par.ts:29-40 | when both sit at the same real table 0 or 1, their chain costs one move, while a split into one chain per guest would cost none |
| Initialize.GetGameFieldObject | src/logic/initialize.ts:85-101 | chairs and table cells get index 1 right of column 3 and 0 otherwise, or the level's rule during onboarding; empty cells get none |
| Initialize.GetGameFieldData | src/logic/initialize.ts:50-83 | the grid matches the level's type grid, or the regular board's, cell by cell as `getGameFieldObject` builds it |
| Initialize.EmptyTableNeverTriggers | src/logic/initialize.ts:145-169 | at a table nobody sits at, a new guest triggers nobody |
| Initialize.IsTriggeringPhobia | src/logic/initialize.ts:145-169 | the chair triggers when a guest at its table is of the type the newcomer fears or fears the newcomer's type, or a chair neighbour at its table is, or fears, the type of a small fear |
| Initialize.FindValidChair | src/logic/initialize.ts:135-143 | the first free chair in board order where the guest triggers nobody; none exactly when every free chair triggers |
| Initialize.GeneratePerson | src/logic/initialize.ts:171-200 | there is a fear exactly when the chance is defined and the roll is above 1 − chanceForBigFear, and a small fear exactly when the chance is defined and the roll is below chanceForSmallFear; no fear is the guest's own colour, and the small fear differs from the fear |
| Initialize.GeneratedGuestsFearless | src/logic/initialize.ts:176-184 | with both chances undefined, as every tier leaves them, the guest has neither a fear nor a small fear, whatever the roll |
| Initialize.FearlessTakesFirstFreeChair | src/logic/initialize.ts:135-143 | among guests without fears nobody triggers anybody, so the chair found is the first free chair, and there is none exactly when no chair is free |
| Initialize.SeatAt | src/logic/initialize.ts:115-116 | the guest sits on the chair with its table index, keeps its identity, and has no flags and no relations |
| Initialize.SeatKeepsFearFree | src/logic/initialize.ts:109-118 | seating on a chair `findValidChair` accepts keeps every pair of tablemates and neighbours free of fear, and keeps positions distinct |
| Initialize.SeatStep | src/logic/initialize.ts:109-118 | one kept guest preserves the seating invariant |
| Initialize.GenerateRound | src/logic/initialize.ts:109-118 | the loop keeps at most `amount` guests, all from the candidates, and reports when it reached `amount`; every kept guest sits, in order, on its own board chair, fearing no tablemate or neighbour |
| Initialize.GenerateCharactersForGame | src/logic/initialize.ts:103-133 | at most 10 retries; the attempt returned is the one of its retry `last`: exactly that round's amount of that round's candidates, with a size within the settings and a fear-free seating; and if it was returned before retry 10, neither table 0 nor table 1 holds 13 guests |
| Initialize.RandomlyApplyCharactersOnBoard | src/logic/initialize.ts:202-221 | the k-th shuffled chair receives the k-th guest from the end, for as many guests as there are chairs, and every guest sits on a board chair |
| Initialize.ApplySeatedCharacters | src/logic/initialize.ts:223-239 | each level guest keeps its identity and chair; it has a table index exactly when its cell is a chair |
| Initialize.SliceIndex | src/logic/initialize.ts:23-24 | a slice end clamps to the list and counts a negative value from the end |
| Initialize.MoveEstimate | src/logic/initialize.ts:35-43 | minMoves is the waiting count plus the par, i.e. plus the triggered count and the cost of the chains `Par.SplitChains` builds from the involved seated guests; maxMoves is the guest count; the bounds of the second list below hold |
| Initialize.EstimateFromChains | src/logic/initialize.ts:35-43 | a minMoves equal to the cost of the `Par.SplitChains` chains plus the triggered count plus the waiting count meets every bound of the second list below |
| Initialize.GenerateGame | src/logic/initialize.ts:20-43 | see the second list below |
| Initialize.ApplyLevel | src/logic/initialize.ts:17-19 | the waiting guests are the level's, the seated guests are `applySeatedCharacters`' result, and the board, step, settings, tier and metadata are unchanged |
| Initialize.ApplyGame | src/logic/initialize.ts:40-47 | the waiting and seated guests and the metadata are the generated game's, and the board, step, settings and tier are unchanged |
| Initialize.PlacePersonsInitially | src/logic/initialize.ts:11-48 | the level's guests during onboarding, a generated game (as in `GenerateGame`, with minMoves the waiting count plus the par of the seated guests) otherwise; nothing changes when the game cannot be set up |
| GameLogic.Moved | src/logic/game-logic.ts:9-13 | the guest takes the target's row, column and table index, and keeps everything else |
| GameLogic.MoveBack | src/logic/game-logic.ts:9-13 | moving back to the old cell restores the guest |
| GameLogic.MovePerson | src/logic/game-logic.ts:9-13 | only the moved guest's entry changes |
| GameLogic.MoveKeepsDistinct | src/components/game-field/game-field.ts:155-184 | a move to a cell nobody stands on keeps positions distinct |
| GameLogic.PlacePersonOnField | src/logic/game-logic.ts:15-31 | the guest, seated with no flags and no relations, is appended; every waiting guest with its `id` leaves the waiting list |
| GameLogic.PlacedIdLeavesWaiting | src/logic/game-logic.ts:27 | no waiting guest keeps the placed `id`, every other guest stays, and the list shrinks exactly when the `id` was present |
| GameLogic.IdlessPlacementDropsAll | src/logic/game-logic.ts:27 | placing a guest without `id` drops every waiting guest without one |
| GameLogic.IdlessPlacementExample | src/logic/game-logic.ts:27 | of two generated waiting guests, placing the first leaves nobody waiting |
| GameLogic.PlaceWaitingPersonOnField | src/logic/game-logic.ts:15-31 | exactly the chosen waiting entry leaves the waiting list, and the guest is appended to the placed list |
| GameLogic.PlaceWaitingKeepsGuests | src/logic/game-logic.ts:27-28 | the waiting and seated guests together are the same multiset as before |
| GameLogic.TransformPlacedPersonToWaitingPerson | src/logic/game-logic.ts:33-40 | the result keeps id, name and phobia, and has no fears |
| GameLogic.PlaceThenTransform | src/logic/game-logic.ts:15-40 | seating a guest without fears and turning it back gives the original guest |
| GameLogic.TransformDropsFear | src/logic/game-logic.ts:33-40 | a guest with a fear does not come back unchanged |
| GameField.EvaluateKeepsDistinct | src/logic/checks.ts:16-53 | evaluation keeps guests on distinct cells |
| GameField.WonBoardIsCalm | src/components/game-field/game-field.ts:228-242 | on a won board nobody waits, every guest sits at a table without panic, and no known table holds 13 guests |
| GameField.GameFieldState.constructor | src/components/game-field/game-field.ts:25-28 | no selection, no clicked cell, no first move, no moves |
| GameField.GameFieldState.StartNewGame | src/components/game-field/game-field.ts:78-81 | the controller is idle again |
| GameField.GameFieldState.CellClickHandler | src/components/game-field/game-field.ts:135-196 | see the third list below |
| GameField.MoveSelectedGuest | src/components/game-field/game-field.ts:179-189 | the selected guest takes the free cell, the board is re-evaluated, `hasWon` is the win check's verdict, only the guest list changes, and positions stay distinct |
| GameField.UpdateState | src/components/game-field/game-field.ts:228-242 | the guests are evaluated; the win flag is that of `getHappyStats` with the waiting list; a win implies nobody waits |
| ScoreFormat.FormatNumber | src/index.ts:75-77 | the decimal text of 10000 + n without its first character |
| ScoreFormat.FormatIsDigits4 | src/index.ts:75-77 | for 0 ≤ n ≤ 9999 the text is the four digits of n |
| ScoreFormat.FormatNumberRoundTrip | src/index.ts:75-77 | for 0 ≤ n ≤ 9999 the text has four decimal digits and reads back as n |
| ScoreFormat.FormatPadsWithZero | src/index.ts:75-77 | a score below 1000 starts with '0' |

`BaseField.GetGameFieldDataFromBaseField` states, for the board it builds:

- the grid matches the type grid and flattens to `allCells`;
- a cell has a table index exactly when it is a chair or a table cell;
- adjacent chairs and table cells share their index;
- table t's table cells and chairs are exactly the cells of that type with index t;
- the first table cell is in the leftmost column;
- each table is connected;
- tables are numbered in the order the board-order walk meets them: every cell of table h > 0 comes after some cell of table h − 1.

`Initialize.GenerateGame` states, for the game it generates:

- the size is within the settings;
- the first `minInitialPanic` guests wait;
- the rest are seated from the last guest backwards;
- maxMoves is the guest count;
- minMoves is the waiting count plus the triggered-neighbour count plus the summed cost of the chains `Par.SplitChains` builds from the conflicted guests, which are the chains `getChainsAndSplitToTables` returns;
- hence minMoves minus the waiting count lies between the triggered-neighbour count and that count plus the conflicted guests;
- minMoves equals the waiting count when no seated guest has a phobia.

`GameField.GameFieldState.CellClickHandler` covers five cases, and then some rules that hold in all of them:

- a free cell with nothing selected, or a table cell, changes nothing;
- the selected guest's own cell clears the selection;
- another guest's cell selects that guest;
- a free non-table cell moves the selected guest: one more move, the board re-evaluated, the selection cleared, and `hasWon` from the win check;
- with nothing selected, a guest's cell selects that guest;
- `lastClickedCell` toggles off on a repeated click of a free cell;
- the first-move flag is set;
- positions stay distinct.

## Left out

- DOM and presentation are outside the model: element creation, CSS classes, mini-help, dialogs, drag and drop, pub/sub, the Poki SDK and console logging.
  - Consequently `updatePanicStates` and `updateStateForSelection` and the rest of `startNewGame` are omitted. Only its resets of the controller state are modelled.
  - The part of `startNewGame` that is omitted clears the board after a tutorial level, builds a new one and places the guests.
  - It also assigns the (void) result of `placePersonsInitially` to `placedPersons`.
- Timers and async pacing (`await`, animation frames) are left out; the model is sequential.
- Probabilities are left out. `getRandomIntFromInterval`, `shuffleArray`, `getRandomItem` and `Math.random` are caller-supplied choices, so no statement is made about distributions.
- `localStorage` and `window.location` are maps. `src/utils/local-storage.ts` is not among the files: its `getLocalStorageItem` and `setLocalStorageItem` are modelled from their call sites (`src/globals.ts:18-19`, `src/logic/difficulty.ts:68`, `src/logic/difficulty.ts:83`) as `Storage.LocalStorage.Get` and `Set`; the `MUTED` key read by `src/index.ts:17` is left out, as is the sound it switches.
- Initialize.GenerateCharactersForGame: the `while` loop that would keep generating forever when no chair fits runs on a finite list of supplied candidates. The model returns `None` when those run out, or when the supplied attempts run out. A returned attempt is stated only for runs that end.
- `calculateScore` is not part of this model (`src/logic/score.ts` is not among the files), so `updateState`'s score and its win screen are omitted.
- `getGameFieldCopy` is a JSON round trip of the board and is left out.
- `getPhobiaName`'s German `"phobia"` → `"phobie"` replacement depends on the language setting and is left out; the English names are modelled.
- The unused triskaidekaphobia tutorial level (commented out in the dispatch) is left out.
- The fourth tutorial level's literals (`src/logic/onboarding.ts:169-214`) are left out, since no step reaches it.
- The level data's `tableHeight` is left out; it only sets CSS properties.
- `applyWaitingPersons` adds `index` and `personElement` to each guest. Those fields are display data, so the model keeps the guest itself.
- `getScaryNeighbors` is a display helper for the selection and is left out.
- Difficulties.RoundDiv: `Math.round` on a non-integer quotient is modelled exactly for a positive divisor. A zero divisor gives NaN instead of JavaScript's ±Infinity, which only a corrupted stored count of -1 can produce.
- JsValues.ParseNumber: `Number` is modelled for integer text (an optional minus sign and decimal digits). Every other text is NaN, including decimals, exponents, surrounding white space and a leading `+`.
- ScoreFormat.FormatNumberRoundTrip: stated only for scores from 0 to 9999. Outside that range `formatNumber` drops or keeps digits in ways the score board never shows.
- Storage: only whole entries under the game's keys are modelled; removal and quota errors are not.
- GameLogic.PlacePersonOnField: a freshly placed guest gets `afraidOf` and `makesAfraid` but no `affects` (`src/logic/game-logic.ts:15-25`; likewise `src/logic/initialize.ts:186-199`). If such a guest sits off every table, `checkTableStates` never sets its `affects` (`src/logic/checks.ts:28-33`), and reading it at `src/logic/checks.ts:38` throws. The model gives the guest an empty `affects`, so the check completes and that guest affects nobody.
- Initialize.SeatAt: seats a generated guest with an empty `affects` for the same reason; the source leaves it undefined until `checkTableStates` runs.
- Par.GetChainsAndSplitToTables: the chains are conflict-free between one another, but a guest listed twice among the involved (a guest that both fears and is feared) may land in a chain twice; and connectivity through conflicts is stated only for boards where no two guests share a cell, which is what keeps `pushCellIfNotInList` from dropping a guest.
- Initialize.GenerateCharactersForGame: the thirteen-guest retry checks the seating `findValidChair` chose, but `randomlyApplyCharactersOnBoard` (`src/logic/initialize.ts:202-216`) then seats the guests on shuffled chairs, so the final board may still have a table of thirteen; the model states the retry about the checked seating only, as the source does.
- Persons are values. The source mutates shared person objects, and that aliasing is not captured: `clickedCell` is modelled as an index into the placed list.

## Findings

| source | as written | input that shows it | evidently intended | confidence | as-written member | corrected member |
|---|---|---|---|---|---|---|
| src/logic/game-logic.ts:27 | `placePersonOnField` removes every waiting guest whose `id` equals the placed guest's `id` | two generated waiting guests, neither with an `id` (`generatePerson` sets none); placing the first removes both | only the placed guest leaves the waiting list | not executed | GameLogic.IdlessPlacementExample | GameLogic.PlaceWaitingKeepsGuests |
