# Minesweeper engine, modelled in Dafny

This project models the rules engine of a browser Minesweeper game:

- the empty board of a configuration: a row-major grid of hidden, safe cells with their neighbour ids;
- the deferred mine placement on the first reveal. The copied board is shuffled with a seeded Fisher-Yates shuffle. Mines are then handed out in shuffled order, never to the clicked cell. Every cell's value is counted, and the board is sorted back by `order`;
- revealing a cell: un-flagging, a single reveal, or the flood-fill cascade from a zero-valued cell;
- toggling a flag;
- the game reducer: new game, start game, start and restart of a replay, and live and replayed moves with their time log, win and loss detection, and the finished-game record;
- the leaderboard: reading and writing the stored list, the plain append, the deduplicating, date-sorted insert, and the fastest times of one difficulty;
- the `mm:ss.mmm` time format;
- the translation table, the lookup `t`, and the choice of the default language;
- the board-size check.

Each source module becomes one Dafny module:

| Dafny module | file | models |
|---|---|---|
| `Wrappers` | wrappers.dfy | `Option` and `Result` |
| `Types` | types.dfy | configurations, cell ids, cells |
| `Collections` | collections.dfy | `filter`, `map`, `some`, `every`, counting |
| `Sorting` | sorting.dfy | the stable comparator sort |
| `Topology` | topology.dfy | `src/getEmptyBoard.ts` |
| `Mining` | mining.dfy | `src/mineBoard.ts` |
| `Reveal` | reveal.dfy | `src/revealCell.ts` |
| `Flagging` | flagging.dfy | `src/flagCell.ts` |
| `Game` | game.dfy | the reducer of `src/useBoard.ts` |
| `TimeFormat` | time_format.dfy | `src/formatMilliseconds.ts` |
| `Leaderboard` | leaderboard.dfy | `src/leaderboard.ts` |
| `LeaderboardDedup` | leaderboard_dedup.dfy | `src/addToLeaderboard.ts` |
| `I18n` | i18n.dfy | `src/i18n.ts` |
| `BoardSize` | board_size.dfy | `src/isBoardSizeValid.ts` |

Most of the engine is pure array code (`map`, `filter`, `some`, `sort`), so most of the model is functions and lemmas. The shuffle is an in-place loop over a copied array. It is `Mining.ShuffleArray`, a method on an `array` proved equal to the function `Mining.Shuffled`. The mine-counting `map` mutates a counter, and it is the `while` loop of `Mining.PlaceMines`, proved equal to the function `Mining.AssignMines`. `Mining.MineBoard` copies the board into a fresh array, runs both, and is proved equal to `Mining.MinedBoard`.

The outside world becomes parameters:

- Storage is a value, `Leaderboard.StoredValue`. A write is a new value, or the old value when the write fails (`writeSucceeds`).
- The reducer receives one clock reading `now` and one ISO date `isoNow` per call.
- The Mersenne Twister generator becomes an oracle `rng(seed, draw, bound)`. For every positive `bound`, its result is below `bound`.

In these places the code departs from the usual Minesweeper rules, and the model follows the code:

- The cascade considers every non-mine cell whatever its state. Flagged and already visible cells in the region become visible (`Reveal.RevealCascade`).
- Neighbour ids are clipped below zero only. The cells of the last column and the last row list ids that name no cell (`Topology.FarEdgeNeighborsOffBoard`).
- Mines are placed by the reveal that finds no reveal in the log. There is no separate "mines placed" flag (`Game.BoardAfterReveal`).
- The deduplicating insert keeps an old entry only when its difficulty, its seed and its type all differ from the new game's. It sorts by start date, not by duration (`LeaderboardDedup.NextLeaderboardSpec`).
- The plain `addToLeaderboard` of `src/leaderboard.ts` appends without deduplicating (`Leaderboard.AddAppends`).

## Model

| member | source | states |
|---|---|---|
| Types.Ids | src/revealCell.ts:37 | the ids of a list of cells, position by position |
| Types.BoardIds | src/revealCell.ts:44-45 | the set of ids naming some cell, each from a cell of the board |
| Collections.Any | src/useBoard.ts:254-256 | `some` holds exactly when some element satisfies the predicate |
| Collections.All | src/useBoard.ts:260-262 | `every` holds exactly when all elements satisfy the predicate |
| Collections.Filter | src/useBoard.ts:261 | the kept elements all satisfy the predicate and come from the input; every satisfying input element is kept; never longer than the input |
| Collections.FilterSubMultiset | src/addToLeaderboard.ts:37-43 | filtering only removes elements: the result is a sub-multiset of the input |
| Collections.Map | src/leaderboard.ts:47 | `map` applies the function position by position |
| Collections.CountPermutation | src/mineBoard.ts:50 | rearranging a list keeps how many of its elements satisfy a predicate |
| Sorting.SortBy | src/mineBoard.ts:50 | the comparator sort returns a rearrangement of its input of the same length |
| Sorting.SortBySorted | src/addToLeaderboard.ts:45 | under a total preorder the sorted list is ordered by the comparator |
| Sorting.SortByStable | src/mineBoard.ts:50 | the sort is stable: the elements tied with any element keep their input order |
| Topology.ShiftAll | src/getEmptyBoard.ts:22-23 | every offset square with no negative coordinate, and no other id, is listed |
| Topology.Neighbors | src/getEmptyBoard.ts:12-24 | a cell lists at most 8 ids, exactly the squares adjacent to it |
| Topology.EmptyBoard | src/getEmptyBoard.ts:3-33 | `x*y` cells; cell `i` sits at column `i mod x`, row `i div x`, has those coordinates as id, order `i`, is hidden and safe with value 0, and lists its adjacent squares |
| Topology.IdLocatesCell | src/getEmptyBoard.ts:7-11 | a cell's id gives its position back: column plus row times width |
| Topology.EmptyBoardIdsDistinct | src/getEmptyBoard.ts:4-25 | the ids of an empty board are pairwise distinct and its orders are `0 .. x*y-1` |
| Topology.FarEdgeNeighborsOffBoard | src/getEmptyBoard.ts:23 | cells of the last column and row list ids in column `x` or row `y`, and those ids name no cell |
| Mining.ShuffleDownPermutes | src/mineBoard.ts:7-11 | every shuffle step swaps two positions, so the shuffle is a rearrangement |
| Mining.Shuffled | src/mineBoard.ts:4-14 | definition of the shuffle; it keeps the length, and its properties are in Mining.ShuffledPermutes, Mining.ShuffleArray |
| Mining.ShuffledPermutes | src/mineBoard.ts:4-14 | the shuffled board is a rearrangement of the board |
| Mining.ShuffleArray | src/mineBoard.ts:4-14 | the in-place loop leaves the array equal to the shuffle of its old contents |
| Mining.AssignMines | src/mineBoard.ts:29-43 | definition of the mine pass; it keeps the length, and its properties are in Mining.AssignMinesKeeps, Mining.AssignMinesAt, Mining.AssignMinesCount, Mining.PlaceMines |
| Mining.AssignMinesKeeps | src/mineBoard.ts:29-43 | the mine pass changes nothing but types |
| Mining.AssignMinesAt | src/mineBoard.ts:29-43 | a shuffled cell becomes a mine exactly when it is not the clicked cell and fewer eligible cells than the remaining count precede it |
| Mining.AssignMinesCount | src/mineBoard.ts:29-43 | the pass places the smaller of the remaining count and the number of eligible cells |
| Mining.PlaceMines | src/mineBoard.ts:21-43 | the counter loop yields exactly the mine pass |
| Mining.WithValues | src/mineBoard.ts:44-49 | each cell's value becomes the number of mines of the board listed among its neighbours; nothing else changes |
| Mining.ByOrderTotal | src/mineBoard.ts:50 | comparing by `order` is a total preorder |
| Mining.MinedBoard | src/mineBoard.ts:16-51 | definition of `mineBoard`; it keeps the length, and its properties are in Mining.MineBoard, Mining.MinedCellsFromBoard, Mining.InitialCellSafe, Mining.MineCount, Mining.MinedBoardInPlace, Mining.MinedValueBound |
| Mining.ValuedAt | src/mineBoard.ts:28-49 | before the sort, each cell is the shuffled cell with only type and value changed; the shuffle and the sort are rearrangements |
| Mining.MineBoard | src/mineBoard.ts:16-51 | the copy, shuffle, pass, count and sort produce exactly the mined board |
| Mining.MinedCellsFromBoard | src/mineBoard.ts:28-50 | every result cell is a board cell with only type and value changed; the clicked cell is safe |
| Mining.InitialCellSafe | src/mineBoard.ts:30-35 | no cell with the clicked id is a mine |
| Mining.MineCount | src/mineBoard.ts:21-43 | the board holds the configured number of mines, capped by the number of cells other than the clicked one; a negative count mines every such cell |
| Mining.MinedOrdersAreRange | src/mineBoard.ts:50 | when orders are positions, the sort puts cell `k` back at position `k` |
| Mining.MinedBoardInPlace | src/mineBoard.ts:28-50 | on an ordered board, cell `k` keeps everything but type and value, and its value counts the result's mines among its neighbours |
| Mining.MinedValueBound | src/mineBoard.ts:44-50 | with distinct ids and orders in place, each cell keeps its neighbour list and its value is at most that list's length |
| Reveal.FindIndex | src/revealCell.ts:4 | `find`: none exactly when no cell has the id; otherwise the first position with it |
| Reveal.FindIndexFirst | src/revealCell.ts:4 | the first position holding the id is the one found |
| Reveal.SetState | src/revealCell.ts:61-70 | cells whose id is listed take the state; the others are unchanged |
| Reveal.ZeroIds | src/revealCell.ts:39-42 | exactly the ids of zero-valued listed cells |
| Reveal.NewSafeCells | src/revealCell.ts:44-50 | a board cell joins exactly when it is not a mine, not yet listed, and has a neighbour id of a zero-valued listed cell |
| Reveal.RoundShrinks | src/revealCell.ts:52-56 | a round that adds cells leaves fewer board ids unlisted, so the cascade ends |
| Reveal.SafeCells | src/revealCell.ts:36-57 | definition of `getSafeCellIds`; its properties are in Reveal.SafeCellsGrow, Reveal.SafeCellsClosed, Reveal.SafeCellsLeast, Reveal.SafeCellsLayout, Reveal.CascadeOnBoard |
| Reveal.SafeCellsGrow | src/revealCell.ts:36-57 | the cascade keeps its starting list and adds only non-mine board cells |
| Reveal.SafeCellsClosed | src/revealCell.ts:36-57 | at the fixed point, every non-mine board cell next to a zero-valued listed cell is listed |
| Reveal.SafeCellsLeast | src/revealCell.ts:36-57 | the cascade lies inside every id set that holds the start and is closed |
| Reveal.SafeCellsLayout | src/revealCell.ts:36-57 | the cascade ignores cell states: boards equal but for states cascade to the same ids |
| Reveal.CascadeOnBoard | src/revealCell.ts:44-59 | every id the cascade lists names a board cell |
| Reveal.RevealCell | src/revealCell.ts:3-71 | a reveal changes cell states only |
| Reveal.RevealMissing | src/revealCell.ts:4-8 | an id naming no cell leaves the board unchanged |
| Reveal.RevealFlagged | src/revealCell.ts:10-21 | a flagged target becomes hidden, nothing becomes visible, other cells are unchanged |
| Reveal.RevealSingle | src/revealCell.ts:23-34 | a mine or positive-valued target becomes visible alone |
| Reveal.RevealCascade | src/revealCell.ts:36-70 | a safe zero-valued target and every cascade cell become visible whatever their state; the cascade lists only the target and safe cells |
| Reveal.RevealSparesMines | src/revealCell.ts:23-70 | with distinct ids and a safe target, no mine changes |
| Reveal.RevealIdempotent | src/revealCell.ts:3-71 | revealing an id twice is revealing it once when the first cell with that id is not flagged |
| Flagging.Toggle | src/flagCell.ts:8-13 | hidden becomes flag, flag becomes hidden, visible stays |
| Flagging.FlagCell | src/flagCell.ts:3-19 | cells with the id have their state toggled; every other cell is unchanged |
| Flagging.ToggleTwice | src/flagCell.ts:8-13 | toggling twice gives the state back |
| Flagging.FlagTwice | src/flagCell.ts:3-19 | flagging the same id twice gives the board back |
| Flagging.FlagKeepsVisibility | src/flagCell.ts:8-13 | a cell is visible after a flag toggle exactly when it was before |
| Game.FirstRevealId | src/useBoard.ts:85-87 | none exactly when no reveal is logged; otherwise the id of the first logged reveal |
| Game.SumFromShift | src/useBoard.ts:212-215 | the fold from an accumulator adds the accumulator to the fold from zero |
| Game.ElapsedSumAppend | src/useBoard.ts:212-222 | appending an entry adds its elapsed time to the total |
| Game.StartTimeOr | src/useBoard.ts:237 | the start time, or `now` when the start is unset or zero |
| Game.StartDateOr | src/useBoard.ts:284 | an unset or empty date is replaced by the current ISO date |
| Game.Decorate | src/useBoard.ts:268-278 | the finished board changes states only |
| Game.HideAll | src/useBoard.ts:115-118 | every cell becomes hidden and nothing else changes |
| Game.ReplayStep | src/useBoard.ts:162-210 | definition of a move during a replay; its properties are in Game.ReplayBookkeeping, Game.NotStartedFails |
| Game.LiveStep | src/useBoard.ts:212-295 | definition of a live move; its properties are in Game.LiveMoveLogged, Game.LiveFlagInProgress, Game.LiveRevealPhase, Game.RevealFinish, Game.NotStartedFails |
| Game.Reducer | src/useBoard.ts:65-297 | only a replay start, a replay restart or a move can fail |
| Game.NewGameIdle | src/useBoard.ts:53-69 | `newGame` yields the idle state with no log and no board |
| Game.StartGameFresh | src/useBoard.ts:70-82 | `startGame` yields a game in progress on the configuration's empty board with an empty log, no start, finish, record or replay index, and the current date |
| Game.NotStartedFails | src/useBoard.ts:162-245 | a flag without a board fails, and a reveal without a board or configuration fails, live or replayed |
| Game.LiveMoveLogged | src/useBoard.ts:212-291 | a live move appends one entry whose elapsed time is `now` minus the start minus the logged time, or 0 before the start; the start becomes `now` if unset; afterwards the logged times add up to the time since the start |
| Game.LiveFlagInProgress | src/useBoard.ts:225-241 | a live flag leaves the game in progress, unfinished, with no record |
| Game.LiveRevealPhase | src/useBoard.ts:242-293 | the phase of a live reveal is lose, win or in progress by the revealed board |
| Game.RevealOutcome | src/useBoard.ts:254-293 | lost exactly when a mine is visible; won exactly when not lost and every hidden cell is a mine |
| Game.HiddenAllMines | src/useBoard.ts:258-262 | filter-then-every holds exactly when every hidden cell is a mine |
| Game.RevealFinish | src/useBoard.ts:264-292 | a finishing reveal flags mines on a win and shows them on a loss, keeps other cells, sets the finish time, and records the log before the move, the configuration, the start date, the start time (`now` when unset) and the finish time; otherwise the board is kept and there is no record |
| Game.MinedRevealShowsNoMine | src/useBoard.ts:247-256 | mining an unrevealed empty board for the clicked id and revealing it shows no mine |
| Game.FirstRevealNeverLoses | src/useBoard.ts:247-256 | the first reveal of a game on an unrevealed empty board never loses |
| Game.MinedEmptyBoardValues | src/mineBoard.ts:44-50 | mining a board laid out as the empty board gives every cell a value of at most 8 |
| Game.ReplayBookkeeping | src/useBoard.ts:162-209 | a replayed move keeps log, phase, dates and record and advances the replay index by one |
| Game.StartReplayFromRecord | src/useBoard.ts:84-110 | a record with a reveal starts a won replay at index 0 on its empty board mined for the first revealed id; a record without one fails |
| Game.StartReplayInPlace | src/useBoard.ts:113-126 | without a record the current board is hidden again at index 0 and the rest is kept |
| Game.RestartReplayRules | src/useBoard.ts:128-159 | a restart needs a replay configuration and a logged reveal, then mines the empty board again for the first revealed id |
| TimeFormat.DigitChar | src/formatMilliseconds.ts:2 | a digit's character is a decimal digit with that value |
| TimeFormat.NatToString | src/formatMilliseconds.ts:2 | the decimal text is digits, one exactly below 10, and starts with `0` only for 0 (no leading zeros) |
| TimeFormat.ParseNatToString | src/formatMilliseconds.ts:2 | reading the text of a number gives the number back |
| TimeFormat.Repeat | src/formatMilliseconds.ts:2 | `n` copies of the pad character |
| TimeFormat.PadStart | src/formatMilliseconds.ts:2-3 | `padStart` gives the larger of the width and the text's length, the text at the end and pad characters before it |
| TimeFormat.PadEnd | src/formatMilliseconds.ts:5 | `padEnd` gives the larger of the width and the text's length, the text at the start and pad characters after it |
| TimeFormat.PadStartValue | src/formatMilliseconds.ts:2-3 | zero-padding on the left keeps the digits and the value |
| TimeFormat.JsRem | src/formatMilliseconds.ts:3 | JavaScript `%`: agrees with the remainder on non-negative operands, is never positive for a negative one, stays strictly between `-b` and `b` and differs from the dividend by a multiple of `b` |
| TimeFormat.TimeFields | src/formatMilliseconds.ts:2-3 | minutes: at least two digits reading the whole minutes; seconds: two digits reading the seconds past the minute, below 60 |
| TimeFormat.FormatMilliseconds | src/formatMilliseconds.ts:1-6 | definition of `formatMilliseconds` as written; its properties are in TimeFormat.FormatShape, TimeFormat.FractionPaddedOnTheRight |
| TimeFormat.FormatMillisecondsPadded | src/formatMilliseconds.ts:1-6 | definition of the format with the fraction padded on the left; its properties are in TimeFormat.FormatPaddedFields, TimeFormat.FormatPaddedSplit, TimeFormat.FormatPaddedInjective |
| TimeFormat.FormatShape | src/formatMilliseconds.ts:1-6 | minutes, `:`, two digits, `.`, three digits; every other character a digit |
| TimeFormat.FractionPaddedOnTheRight | src/formatMilliseconds.ts:5 | as written, 5 ms, 50 ms and 500 ms all render `00:00.500` |
| TimeFormat.FormatPaddedFields | src/formatMilliseconds.ts:1-6 | padded on the left, the fraction is three digits reading the milliseconds past the second |
| TimeFormat.FormatPaddedSplit | src/formatMilliseconds.ts:1-6 | equal left-padded texts have equal minute, second and fraction fields |
| TimeFormat.FormatPaddedInjective | src/formatMilliseconds.ts:1-6 | the left-padded format renders different durations differently |
| Leaderboard.ReadLeaderboard | src/leaderboard.ts:11-23 | a stored list reads as itself; nothing or unparsable text reads as the empty list |
| Leaderboard.WriteLeaderboard | src/leaderboard.ts:25-31 | a successful write stores the list; a failed one keeps the old value |
| Leaderboard.AddToLeaderboard | src/leaderboard.ts:33-37 | definition of the plain `addToLeaderboard`; its properties are in Leaderboard.AddAppends |
| Leaderboard.AddAppends | src/leaderboard.ts:33-37 | the item is read back last, after the old list; a failed write changes nothing |
| Leaderboard.TakeFirst | src/leaderboard.ts:49 | the first `limit` elements, none for a limit of 0 or less |
| Leaderboard.PrefixSmallest | src/leaderboard.ts:48-49 | a prefix of the sorted durations is ascending and holds the smallest ones |
| Leaderboard.DurationsOfDifficulty | src/leaderboard.ts:46-47 | every listed duration is the finish minus start of a stored game of the difficulty |
| Leaderboard.FastestDurations | src/leaderboard.ts:43-49 | definition of the ranked durations; its properties are in Leaderboard.FastestDurationsRanked, Leaderboard.PrefixSmallest, Leaderboard.DurationsOfDifficulty |
| Leaderboard.FastestDurationsRanked | src/leaderboard.ts:43-49 | ascending, as many as the smaller of the limit and the difficulty's games, each a stored game's duration, none left out smaller |
| Leaderboard.GetFastestTimes | src/leaderboard.ts:39-56 | one `MM:SS` text per ranked duration, in order |
| Leaderboard.GetFastestTimesDefault | src/leaderboard.ts:39-42 | definition of `getFastestTimes` with the default limit of 3; its properties are in Leaderboard.GetFastestTimes |
| Leaderboard.MinutesSecondsShape | src/leaderboard.ts:50-55 | at least two minute digits reading the minutes, `:`, two digits reading the seconds past the minute |
| LeaderboardDedup.LexLeTotal | src/addToLeaderboard.ts:45 | any two dates compare one way or the other |
| LeaderboardDedup.LexLeTransitive | src/addToLeaderboard.ts:45 | date order is transitive |
| LeaderboardDedup.ByStartDateTotal | src/addToLeaderboard.ts:45 | ordering by start date is a total preorder |
| LeaderboardDedup.NextLeaderboard | src/addToLeaderboard.ts:36-45 | definition of the list that is written; its properties are in LeaderboardDedup.NextLeaderboardSpec, LeaderboardDedup.NextLeaderboardStable, LeaderboardDedup.SharedFieldDropped |
| LeaderboardDedup.NextLeaderboardSpec | src/addToLeaderboard.ts:36-45 | the written list is the kept entries plus the game, sorted by start date; an old entry is in it exactly when it differs from the game in difficulty, seed and type |
| LeaderboardDedup.NextLeaderboardStable | src/addToLeaderboard.ts:45 | entries with the same start date are written in the order of the kept entries followed by the game |
| LeaderboardDedup.SharedFieldDropped | src/addToLeaderboard.ts:37-43 | an entry sharing difficulty, seed or type with the game is dropped |
| LeaderboardDedup.AddToLeaderboard | src/addToLeaderboard.ts:33-48 | definition of `addToLeaderboard`; its properties are in LeaderboardDedup.AddToLeaderboardStored |
| LeaderboardDedup.AddToLeaderboardStored | src/addToLeaderboard.ts:33-48 | after a successful write the store reads back as the deduplicated list, just the game when it held no list; a failed write changes nothing |
| I18n.LanguageOf | src/i18n.ts:3-9 | a code names a language exactly when it is `en`, `es` or `fr`, and that language's code is it |
| I18n.T | src/i18n.ts:51-57 | English returns the key; another language returns a non-empty entry, else the key |
| I18n.MissingFrenchFallsBack | src/i18n.ts:17-33 | `Expert` and `mines` have no French entry and fall back to the key |
| I18n.TranslationExamples | src/i18n.ts:17-33 | Spanish `Expert` and French `Beginner` are translated from their entries |
| I18n.EnglishIsKey | src/i18n.ts:51-53 | English returns every key unchanged |
| I18n.Lower | src/i18n.ts:41 | ASCII capitals are lowered, every other character kept, length kept |
| I18n.Candidates | src/i18n.ts:39 | the stored language, then each browser language in order |
| I18n.NormalizeAll | src/i18n.ts:41 | each candidate cut to two characters and lowered |
| I18n.PipelineIsFirstKnown | src/i18n.ts:39-48 | filter, normalise and find pick the first truthy candidate naming a language, else English |
| I18n.GetDefaultLanguage | src/i18n.ts:36-49 | definition of `getDefaultLanguage`; its properties are in I18n.PipelineIsFirstKnown, I18n.DefaultLanguageChoice |
| I18n.DefaultLanguageChoice | src/i18n.ts:36-49 | a stored preference naming a language wins; else the first browser language naming one; else English |
| BoardSize.ValidIff | src/isBoardSizeValid.ts:1-10 | a size is valid exactly when it is a whole number from 8 to 24 |
| BoardSize.SizeExamples | src/isBoardSizeValid.ts:1-10 | 8, 16 and 24 are valid; 7, 25 and 8.5 are not |
| BoardSize.IsBoardSizeValid | src/isBoardSizeValid.ts:4-10 | definition of `isBoardSizeValid`; its properties are in BoardSize.ValidIff, BoardSize.SizeExamples |

## Left out

- The React hook around the reducer (`src/useBoard.ts:299-415`), its timers and effects, are not modelled; only the reducer is.
- Local storage and JSON are not modelled. The store is a value that holds nothing, unparsable text, or a parsed list. A parsed value that is not a list is not modelled.
- The share codec, `src/getBoard.ts`, the daily seed and the other UI files are not part of this model.
- The Mersenne Twister generator is not modelled. An abstract draw oracle whose results are in range stands for it.
- `Date.now()` and `new Date().toISOString()` become one reading each per reducer call, passed in as parameters. The source may read the clock several times in one call.
- `localeCompare` is not modelled; code-point order stands for it, and it agrees on the ISO date strings the game writes.
- `toLowerCase` is not modelled on non-ASCII letters; the model lowers ASCII letters only.
- Numbers are not modelled as floating point. Durations, seeds and times are unbounded integers: `NaN`, `Infinity`, fractional milliseconds and `Number.isInteger` beyond the reals are out of scope. Board sizes are reals.
- Cell ids become coordinate pairs rather than `"x,y"` strings. The string form is one-to-one on non-negative coordinates and is only compared for equality.
- Game.FirstRevealNeverLoses: assumes the board is laid out as the configuration's empty board with no visible cell. The reducer itself does not check this, and it holds for every board `startGame` creates.
- I18n.T: requires the key to be in the table for a language other than English. The table is typed `Record<string, …>` (src/i18n.ts:13-16), so any string type-checks, and for Spanish or French an unknown key would throw at src/i18n.ts:56. Every call site passes a key of the table (src/BackToMainMenu.tsx:11, src/Game.tsx:24, src/Game.tsx:34, src/useTranslation.tsx:14).

## Findings

| source | as written | input that shows it | evidently intended | confidence | as-written member | corrected member |
|---|---|---|---|---|---|---|
| src/formatMilliseconds.ts:5 | the millisecond field is padded with zeros on the right (`padEnd`) | 5 ms, 50 ms and 500 ms all render `00:00.500` | pad on the left (`padStart`), so 5 ms renders `00:00.005` and different durations render differently | not executed | TimeFormat.FractionPaddedOnTheRight | TimeFormat.FormatPaddedInjective |
