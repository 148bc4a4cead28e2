# Tokyo Cam Bingo: a verified model of the game core

Tokyo Cam Bingo is a multiplayer bingo game played over the web. Each player
holds a 5x5 card of prompts ("items") and stamps a cell when the prompt shows
up. In regular mode every player has an own card and stamps tiles on it. In VS
mode all players share one card, and a cell belongs to whoever stamped it first.
A game ends when a player meets one of the game's win rules (a row, two or three
rows, columns, a diagonal, the full card, or, in VS mode, `most_squares`). The
host may re-deal parts of a card ("reroll") and restart an ended game. Any
player may throw a flag against a stamp, which opens a vote among the players.

This project models that core in Dafny and proves properties of it:

- `Cards` (cards.dfy): dealing a card (`generateCard`) and rerolling part of
  one (`rerollCard`): the selector parse, the fresh items, and the cells left
  alone.
- `WinCheck` (win_check.dfy): the hardened win detector of `utils/checkWin.js`
  and the cases of its test file.
- `ServerWin` (server_win.dfy): the older win check inside `server.js`, how it
  relates to the hardened one, and the inputs on which it throws.
- `Stamps` (stamps.dfy): the VS stamp lists, the exclusive toggle, and the
  purge after a reroll.
- `Votes` (votes.dfy): the flag vote.
- `Engine` (engine.dfy): the stored game and player records, and the
  `join_room`, `stamp`, `reroll`, `new_game`, `throw_flag` and `cast_vote`
  handlers as methods of a class `Server`.
- `I18n` (i18n.dfy): locale resolution, dotted-path lookups and writes,
  `{token}` interpolation and the translation fallbacks.
- `BingoTasks` (bingo_tasks.dfy): the task catalogue (titles, buckets, pools,
  pool metadata).
- `GameClient` (game_client.dfy): the player page's reroll selection and
  leaderboard.
- `Timer` (timer.dfy): the client-side game timer.
- `Picker` (timer_picker.dfy): the hours/minutes wheel picker.
- `Js` (js.dfy) and `Wrappers` (wrappers.dfy): the JavaScript built-ins these
  rely on (`parseInt`, `toString`, `padStart`, `split`, `trim`, `%`) and an
  `Option` type.

How JavaScript values are modelled:

- A JavaScript number as `Number.isInteger` and `parseInt` see it is
  `Num = Int(i) | NotInt`. `NotInt` covers `NaN`, fractions and non-numbers.
- `===` on such numbers never holds for `NaN`.
- A call that throws is a `None` result.
- Each socket handler runs as one atomic method. Its broadcasts are appended to
  a ghost event log.
- Database rows are maps from ids to records.

The model follows the code where the code and its written description differ:

- `stamp` does not validate coordinates. In VS mode an off-board or `NaN`
  stamp is stored as given. In regular mode it throws before anything is
  written.
- The VS branch of `stamp` decides line wins with the older `checkWin` of
  server.js, not with utils/checkWin.js. That check throws on an empty stamp
  list and on a stamp whose row is off the board or `NaN`. The new stamps are
  then already stored, but no win is declared, `most_squares` is not tried
  and nothing is broadcast. `Engine.StampVsOutcome` models this;
  `Engine.StampVsCorrectedOutcome` is the hardened variant, and
  `Engine.StampVsCorrection` states where the two differ.
- `reroll` and `new_game` do not check that the caller is the host.
- `throw_flag` does not check that the flagger belongs to the game.
- The VS `reroll` recomputes the rerolled positions only for the types tile,
  row, column, diagonal and card. For `random_row`, `random_column` and
  `random_diagonal` the shared card changes but no stamp is purged.
  `Cards.RandomRerollNamesNothing` states this gap.
- Under `most_squares` a leader named `""` is never declared: the source tests
  `winner && !isTie`.

## Model

| member | source | states |
|---|---|---|
| `Cards.GenerateCardDeals` | server.js:49-55 | A dealt card is 5 rows of unstamped prompts taken from the shuffle; with at least 25 prompts it is a 5x5 card holding the first 25 in order, pairwise distinct when the list has no repeats |
| `Cards.GenerateCardCell` | server.js:49-55 | With at least 25 prompts, tile (r, c) is prompt number r * 5 + c of the shuffle, on a row of five |
| `Cards.RegionsAreRegions` | server.js:71-85 | Every row, column, diagonal and the whole-card selection lists on-card positions without repeats |
| `Cards.Select` | server.js:62-101 | The selector parse: 1-based tile/row/column arguments and the diagonal name become fixed positions, which are always on-card and distinct; an unknown type, unknown diagonal, `NaN` or out-of-range index gives "unchanged" |
| `Cards.ChoosePositions` | server.js:62-101 | The positions that will be re-dealt: exactly the parsed ones, or for a random selector some row, some column, or one of the two diagonals |
| `Cards.Available` | server.js:104-105 | The replacement pool holds exactly the listed items not on the card, without repeats when the list has none |
| `Cards.IndexOf` | server.js:112 | `indexOf`: the first index holding the element |
| `Cards.Take` | server.js:108-112 | Picking and splicing one item: it came from the pool, the rest is the pool minus one element, and without repeats the picked item is gone |
| `Cards.Put` | server.js:110 | Writing one cell changes that cell only |
| `Cards.DealInto` | server.js:107-113 | The deal loop: cells outside the positions keep their tiles; the first min(positions, pool) positions get unstamped items from the pool that were not on the card, pairwise distinct when the pool has no repeats; the positions after the pool ran out keep their tiles |
| `Cards.PlaceKeepsDistinct` | server.js:107-113 | The loop invariant of the deal: an item taken from the pool differs from every item already placed, and the placed items are not left in the pool |
| `Cards.RerollCard` | server.js:58-116 | `rerollCard`: an unchanged selector returns the card as it was; otherwise the result is a 5x5 card that differs only at the chosen positions, in the way `DealInto` states |
| `Cards.Lift` | server.js:482-502 | The handler's raw `[row, col]` pairs for 0-based positions |
| `Cards.RerolledPositionsAgree` | server.js:482-502 | For every fixed selector, the VS handler's own recomputation of the positions equals the positions `rerollCard` re-dealt |
| `Cards.RandomRerollNamesNothing` | server.js:482-502 | For the `random_*` selectors the VS handler names no position, so no stamp is purged |
| `WinCheck.NormalizeRules` | utils/checkWin.js:3-8 | Anything that is not an array counts as no rules |
| `WinCheck.ResolveBoardSize` | utils/checkWin.js:10-16 | The board size is always between 3 and 10: the given integer when it is in range, 5 otherwise |
| `WinCheck.SpecGrid` | utils/checkWin.js:39-61 | The grid the input stands for is N by N, and a cell is marked exactly when the input marks it |
| `WinCheck.Cascade` | utils/checkWin.js:86-95 | The verdict is a win exactly when it names a condition |
| `WinCheck.FillFromStamps` | utils/checkWin.js:42-51 | The VS `forEach` throws exactly when some entry is `null`/`undefined`; otherwise a cell is marked exactly when some entry has integer fields naming it, and off-board or non-integer stamps mark nothing |
| `WinCheck.FillFromCard` | utils/checkWin.js:53-60 | The regular double loop: a cell is marked exactly when its row is an array whose tile is truthy and stamped; missing rows and tiles count as unstamped |
| `WinCheck.ScanColumns` | utils/checkWin.js:68-76 | The column scan with `break` computes, for each column, whether all its cells are marked |
| `WinCheck.CheckWin` | utils/checkWin.js:26-96 | `checkWin` on a 2-D array equals the specification `CheckWinSpec`, and it throws exactly in the VS cases above |
| `WinCheck.CascadeIsFirstApplicableRule` | utils/checkWin.js:86-95 | A win is reported exactly when some listed rule is satisfied, and its condition is the label of the first such rule in the order row, 2rows, 3rows, column, 2columns, 3columns, diagonals, full |
| `WinCheck.MoreMarksKeepWin` | utils/checkWin.js:65-93 | Marking more cells never takes a win away |
| `WinCheck.FullBoardMeetsEveryRule` | utils/checkWin.js:79-93 | A fully marked board wins under the first listed rule, whichever it is |
| `WinCheck.BlankBoardNeverWins` | utils/checkWin.js:65-95 | A board with no mark wins under no rules |
| `WinCheck.FullRowWins` | utils/checkWin.js:65-86 | With `row` listed, one completely marked row wins as `Row` |
| `WinCheck.EmptyStampsNeverWin` | utils/checkWin.js:41-95 | An empty stamp list in VS mode gives `{won: false, condition: null}` for any rules and size |
| `WinCheck.NoCardNeverWins` | utils/checkWin.js:53-60 | In regular mode an empty card, or anything that is not an array, never wins |
| `WinCheck.NonArrayRulesNeverWin` | utils/checkWin.js:3-8 | Rules that are not an array never give a win |
| `WinCheck.StampedRowWins` | utils/checkWin.js:42-86 | In VS mode stamps covering a row win as `Row` under `row` |
| `WinCheck.StampedCardRowWins` | utils/checkWin.js:53-86 | In regular mode a row of stamped tiles wins as `Row` under `row` |
| `WinCheck.VsEmptyArrayCase` | test/checkWin.test.js:4-8 | The empty VS stamp list gives no win and no condition |
| `WinCheck.VsRowCase` | test/checkWin.test.js:10-15 | Five VS stamps on row 0 give a `Row` win |
| `WinCheck.RegularRowCase` | test/checkWin.test.js:17-27 | A regular card with row 1 stamped gives a `Row` win |
| `WinCheck.RegularSparseCase` | test/checkWin.test.js:29-40 | The sparse card (short rows, `null`, `undefined`, an empty row) neither throws nor wins |
| `WinCheck.RegularEmptyCase` | test/checkWin.test.js:42-46 | An empty regular card gives no win and no condition |
| `WinCheck.RowOnlyNeedsLastColumn` | utils/checkWin.js:65-86 | Under `row` alone, a grid whose last column is blank does not win |
| `ServerWin.LegacyStampGrid` | server.js:123-129 | The legacy VS grid is 5x5 |
| `ServerWin.LegacyCardGrid` | server.js:132-137 | The legacy regular grid is 5x5 |
| `ServerWin.LegacyCardNeverThrows` | server.js:130-137 | On a dealt 5x5 card the legacy check never throws |
| `ServerWin.LegacyAgreesOnStamps` | server.js:119-175 | On a non-empty stamp list with every row on the board, the legacy check agrees with the hardened detector in VS mode |
| `ServerWin.LegacyAgreesOnCards` | server.js:119-175 | On a dealt card the legacy check agrees with the hardened detector in regular mode |
| `ServerWin.LegacyThrowsOnEmptyStamps` | server.js:121-135 | An empty VS stamp list is not recognised as VS and the legacy check throws reading `card[0][0]`, while the corrected check reports no win |
| `ServerWin.LegacyThrowsOnOffBoardRow` | server.js:127-129 | A VS stamp on row 5 makes the legacy check throw, while the corrected check reports no win |
| `ServerWin.ToEntries` | server.js:367-387 | Stored stamps become detector entries, one per stamp, none of them `null` |
| `ServerWin.VsCheck` | utils/checkWin.js:26-96 | The corrected VS win test: the hardened detector with VS mode forced on |
| `ServerWin.VsWinsNeverThrows` | utils/checkWin.js:41-51 | The hardened detector never throws on a stamp list |
| `ServerWin.VsWinsEmpty` | utils/checkWin.js:41-95 | No stamps, no win |
| `Stamps.FindStamp` | server.js:369-371 | `findIndex`: -1 exactly when the player holds no stamp on the cell, else the first index that does |
| `Stamps.RemoveAt` | server.js:375 | `splice(k, 1)`: the k-th stamp is dropped, the others keep their order, and the multiset loses exactly that stamp |
| `Stamps.Toggle` | server.js:367-392 | The request is refused exactly when the player does not hold the cell and another player does |
| `Stamps.ToggleEffect` | server.js:373-388 | A held cell: the list is the old one with the stamp at `findIndex` spliced out, the cell is no longer held, and every stamp on another cell stays; a free cell gains `{row, col, color}` at the end |
| `Stamps.ToggleKeepsExclusive` | server.js:365-397 | A toggle that goes through keeps every cell held by at most one player and by nobody twice |
| `Stamps.Purge` | server.js:511-521 | The VS reroll filter keeps exactly the stamps not on a rerolled position, in order |
| `Stamps.ClearCell` | server.js:678-681 | The upheld-flag filter keeps exactly the stamps not on the flagged cell, in order |
| `Stamps.SubsequenceNoDup` | server.js:511-521 | Filtering a list keeps it free of repeated cells |
| `Stamps.ShrinkKeepsExclusive` | server.js:511-521 | Filtering any players' lists keeps a VS game exclusive |
| `Votes.OpenVote` | server.js:621-626 | A new vote lists every current player as a voter with no ballot, and counts them as its players |
| `Votes.BallotOf` | server.js:649 | `yes` is a yes; every other value is a no |
| `Votes.Record` | server.js:643-649 | A ballot is ignored from a voter outside the snapshot or one who already voted; otherwise exactly that voter's ballot is set |
| `Votes.CountsAddUp` | server.js:651-661 | Yes and no ballots add up to the ballots cast, never more than the voters; everybody has voted exactly when all ballots are cast |
| `Votes.RecordCountsOnce` | server.js:649-656 | A recorded ballot adds one cast ballot, of its own kind |
| `Votes.ScenarioTwoToOne` | server.js:661-663 | Two yes against one no: everyone voted and the challenge passes |
| `Votes.ScenarioTie` | server.js:661-663 | One yes against one no: everyone voted and the challenge fails |
| `Votes.ScenarioPending` | server.js:651-661 | With a voter left the vote is still open |
| `Engine.UpdateOnePlayer` | server.js:394-397 | Replacing one player's record, keeping its game and a 5x5 card, keeps the records well formed |
| `Engine.UpdatePlayersOfGame` | server.js:511-521 | Replacing the records of one game's players keeps every game's roster, card shapes and VS exclusivity |
| `Engine.OtherGameUntouched` | server.js:511-521 | Another game's players keep their records |
| `Engine.LeaderUnique` | server.js:425-436 | At most one player has strictly more stamps than every other |
| `Engine.WinnerIsLeader` | server.js:425-436 | The most-squares winner is exactly the unique leader, when that leader's name is not empty |
| `Engine.MostSquares` | server.js:421-436 | The `forEach` with `maxStamps`, `winner` and `isTie` names exactly the unique strict leader with a non-empty name |
| `Engine.Flip` | server.js:450-452 | The regular stamp flips one tile's mark and changes no other cell |
| `Engine.Unmark` | server.js:693-694 | The upheld flag clears one tile's mark and changes no other cell |
| `Engine.StampVsStep` | server.js:365-446 | After a VS toggle that goes through, the records stay well formed, and the older `checkWin` of server.js then runs on the new stamps: when it throws nothing is broadcast, otherwise its verdict settles the game |
| `Engine.StampVsCorrection` | server.js:394-446 | The handler as written and the one with the hardened check agree on every non-empty list of on-board-row stamps; on an empty list or an off-board or `NaN` row the handler keeps the stored stamps and broadcasts nothing, where the corrected one ends by broadcasting the new state |
| `Engine.SettleBroadcasts` | server.js:404-446 | Every settled VS request ends with `update_state` |
| `Engine.StampVsBlocked` | server.js:385-391 | A blocked VS request changes nothing and broadcasts nothing |
| `Engine.StampCardStep` | server.js:448-467 | A regular flip keeps the records well formed, and the game ends only when the tile became stamped and the card wins |
| `Engine.SharedRerollKeepsWellFormed` | server.js:477-528 | A VS reroll keeps the records well formed |
| `Engine.SharedRerollEffect` | server.js:511-521 | After a VS reroll every player of the game holds the new card and keeps exactly the stamps off the rerolled positions |
| `Engine.SharedDealKeepsWellFormed` | server.js:547-565 | A VS restart keeps the records well formed |
| `Engine.Restart` | server.js:551-554 | A restarted game is active with no winner, and otherwise unchanged |
| `Engine.DealFrom` | server.js:566-587 | The regular deal round on a stream of shuffles gives `n` cards after the ones used before |
| `Engine.DealtCardIsFresh` | server.js:49-55 | A dealt card is 5x5 with nothing marked |
| `Engine.DealFromDeals` | server.js:570-580 | The cards of one round are pairwise distinct, and fresh when every shuffle is full |
| `Engine.DealGivesDistinctCards` | server.js:566-587 | A regular restart gives the players of the game pairwise distinct cards and leaves everybody else alone |
| `Engine.DealGivesFreshCards` | server.js:566-587 | Each of those cards is a fresh 5x5 card |
| `Engine.DealKeepsWellFormed` | server.js:566-587 | A regular restart keeps the records well formed |
| `Engine.DrawUnused` | server.js:574-580 | The `do ... while` draws shuffles until it gets a card not yet used in the round |
| `Engine.Uphold` | server.js:666-703 | A passed vote clears the flagged cell of the target (its stamps there in VS mode, the tile's mark on a regular card); nobody else changes; a missing game or target, or an off-card regular cell, changes nothing |
| `Engine.UpholdKeepsWellFormed` | server.js:666-703 | The follow-up of a passed vote keeps the records well formed |
| `Engine.Server.constructor` | server.js:15-16 | The server starts with no flag allowances and no votes |
| `Engine.Server.JoinRoom` | server.js:338-349 | A player's flag allowance is set to 2 only the first time; the state is broadcast |
| `Engine.Server.Stamp` | server.js:351-468 | An unknown player, a player of another game, or an ended game changes nothing; otherwise the VS or the regular outcome is exactly what the records and the log become, including the VS case where the older check throws after the stamps were written |
| `Engine.Server.StampVs` | server.js:365-446 | The VS branch: a refused toggle changes nothing; otherwise the new stamps are stored, and then, unless the older check throws, a line win ends the game and `most_squares` is tried next |
| `Engine.Server.Settle` | server.js:394-446 | Storing the new stamps, then the line win or the most-squares test |
| `Engine.Server.SettleMostSquares` | server.js:412-443 | With `most_squares` listed and 25 stamps down, the unique leader wins; any tie keeps the game active |
| `Engine.Server.StampCard` | server.js:448-467 | The regular branch: an off-card cell changes nothing; otherwise the tile flips, and the game ends only on a new stamp that wins |
| `Engine.Server.SettleCard` | server.js:453-466 | Storing the flipped card, and ending the game when it won |
| `Engine.Server.DeclareWinner` | server.js:405-409 | The game ends with that winner; `win` and the new state are broadcast |
| `Engine.Server.Reroll` | server.js:470-538 | An ended or unknown game changes nothing; VS mode rerolls the shared card for everybody and purges their stamps on the recomputed positions; regular mode rerolls the target's own card, or does nothing for a target outside the game |
| `Engine.Server.RerollShared` | server.js:477-528 | The VS branch of `reroll` |
| `Engine.Server.ShareReroll` | server.js:511-521 | The loop over the players of the VS reroll |
| `Engine.Server.RerollOwn` | server.js:529-537 | The regular branch of `reroll` |
| `Engine.Server.NewGame` | server.js:540-589 | Only an ended game restarts; a VS game gets one new shared card and every player that card with no stamps; a regular game deals each player a card no other player of the round holds |
| `Engine.Server.ShareDeal` | server.js:557-563 | The loop over the players of the VS restart |
| `Engine.Server.DealCards` | server.js:570-585 | The loop over the players of the regular restart |
| `Engine.Server.ThrowFlag` | server.js:608-639 | Nothing happens with a vote running, no flag left, a missing game or fewer than two players; otherwise one flag is spent and a vote opens with every player as a voter |
| `Engine.Server.CastVote` | server.js:642-716 | Ignored ballots change nothing; a recorded ballot broadcasts the tally; once all voted the result is broadcast and the vote deleted, and a yes majority clears the flagged cell |
| `I18n.NormalizeLocale` | utils/i18n.js:25-28 | `''` for a non-string or empty value; otherwise the lower-cased text before the first `-` |
| `I18n.ResolveLocale` | utils/i18n.js:35-38 | Always a supported locale: the normalised value exactly when it is supported, `en` otherwise |
| `I18n.ResolveLocaleIdempotent` | utils/i18n.js:35-38 | Resolving a resolved locale gives it back |
| `I18n.ResolveRegionalLocale` | utils/i18n.js:25-38 | `ja-JP` resolves to `ja`, `EN` to `en`, `fr` to `en` |
| `I18n.GetDictionary` | utils/i18n.js:40-42 | The locale's dictionary when truthy, else the English one, else `{}` |
| `I18n.GetNested` | utils/i18n.js:61-69 | Nothing for a falsy object or empty key; a plain key reads the own property |
| `I18n.SetPath` | utils/i18n.js:71-84 | The write adds the first segment, leaves the other entries alone, stores the value at the last segment and an object on the way |
| `I18n.GetAfterSet` | utils/i18n.js:61-84 | Reading a dotted key after writing it gives the written value |
| `I18n.SetLeavesOtherPaths` | utils/i18n.js:71-84 | Writing under one top-level entry leaves every path through another entry alone |
| `I18n.WordPrefix` | utils/i18n.js:88 | The longest run of `\w` characters at the front |
| `I18n.Interpolate` | utils/i18n.js:86-94 | No vars or a non-string template: unchanged; otherwise the placeholders are replaced |
| `I18n.Placeholder` | utils/i18n.js:88-93 | A `{word}` becomes the word's value, or `''` when vars lacks it |
| `I18n.NoPlaceholders` | utils/i18n.js:88-93 | Text without `{` is left as it is |
| `I18n.Lookup` | utils/i18n.js:98-103 | The value from the resolved locale, else from English |
| `I18n.Translate` | utils/i18n.js:96-112 | `''` for an empty key; a found string is interpolated, another found value returned as is; with nothing found the key itself |
| `I18n.FallbackRepeatsLookup` | utils/i18n.js:104-117 | The `getFallbackValue` branch never finds a value the English lookup missed |
| `I18n.TranslateMissingKey` | utils/i18n.js:104-107 | A key found in neither dictionary translates to itself |
| `I18n.Unique` | utils/i18n.js:120 | `new Set` on the namespaces: the same elements, no repeats |
| `I18n.UniqueInFirstOrder` | utils/i18n.js:120 | The kept names are in the order of their first occurrence, which is the order `Bundle` writes them in |
| `I18n.GetClientTranslations` | utils/i18n.js:119-133 | The bundle is built from `common`, `actions` and the requested namespaces, each once |
| `I18n.BundleContents` | utils/i18n.js:123-131 | A plain namespace is in the bundle exactly when the locale or English has it, with that value |
| `I18n.ClientTranslationsHaveFallbacks` | utils/i18n.js:119-133 | `common` and `actions` are always asked for, and are in the bundle whenever a dictionary has them |
| `I18n.TranslateItemText` | utils/i18n.js:135-142 | `''` for a non-string; the locale's item, else the English item, else the text unchanged |
| `BingoTasks.SanitizeValue` | utils/bingoTasks.js:22-25 | `''` for `undefined`/`null`; otherwise the trimmed string form, with no white space at either end |
| `BingoTasks.SanitizeKeepsText` | utils/bingoTasks.js:22-25 | A present value becomes one stretch of its string form, with only white space cut off before and after it |
| `BingoTasks.SanitizeIdempotent` | utils/bingoTasks.js:22-25 | Sanitising twice is sanitising once |
| `BingoTasks.FormatTaskText` | utils/bingoTasks.js:27-30 | The trimmed text exactly when the task field is a string that is not blank, `null` otherwise |
| `BingoTasks.Collapse` | utils/bingoTasks.js:15 | After replacing the runs of `_`/`-`, no dash is left |
| `BingoTasks.CollapseDashFree` | utils/bingoTasks.js:15 | Text without `_` or `-` is unchanged by the replace |
| `BingoTasks.SkipRun` | utils/bingoTasks.js:15 | A run of `_`/`-` is consumed up to the first other character |
| `BingoTasks.CollapseRun` | utils/bingoTasks.js:15 | Each maximal run of `_`/`-` becomes exactly one space, with the text before it kept |
| `BingoTasks.NonEmpty` | utils/bingoTasks.js:17 | `.filter(Boolean)` keeps only non-empty words of the list |
| `BingoTasks.CapitalizeAll` | utils/bingoTasks.js:18 | Each word gets its first letter upper-cased |
| `BingoTasks.JoinTitled` | utils/bingoTasks.js:19 | Title words joined by single spaces form a title |
| `BingoTasks.TitleizeTitled` | utils/bingoTasks.js:12-20 | An empty value gives `''`; every title has no dash, no space at either end, no doubled space, and capitalised words |
| `BingoTasks.TitleizeExample` | utils/bingoTasks.js:12-20 | `co-op` becomes `Co Op` |
| `BingoTasks.SplitPiecesOf` | utils/bingoTasks.js:16 | The pieces of a split never contain the separator |
| `BingoTasks.AddId` | utils/bingoTasks.js:43 | `Set.add`: the id is in, nothing else is new, an id already in changes nothing |
| `BingoTasks.Upsert` | utils/bingoTasks.js:32-44 | A blank value or id leaves the map as it was |
| `BingoTasks.UpsertEffect` | utils/bingoTasks.js:32-44 | Otherwise the bucket of the value holds the id, a new bucket gets the value's title, and the other buckets stay |
| `BingoTasks.UpsertIdempotent` | utils/bingoTasks.js:32-44 | Repeating an upsert changes nothing |
| `BingoTasks.UpsertKeepsBuckets` | utils/bingoTasks.js:32-44 | Every bucket stays filed under its own non-empty value with a repeat-free id list |
| `BingoTasks.EntryOf` | utils/bingoTasks.js:52-61 | A task yields an entry exactly when its sanitised id and its text are non-empty, with the sanitised fields |
| `BingoTasks.EntryListAt` | utils/bingoTasks.js:49-51 | The tasks handled are exactly those before the first `null`, where the loop throws and the error is caught |
| `BingoTasks.LoadAllConsistent` | utils/bingoTasks.js:46-71 | Loading keeps the id list and the entries in step, each entry keyed by its id with non-empty text, and every filed id known |
| `BingoTasks.LoadAllKeeps` | utils/bingoTasks.js:51-67 | Every task before the first `null` with a non-empty id and text is listed with an entry, and no earlier id is lost |
| `BingoTasks.Catalog.constructor` | utils/bingoTasks.js:5-8 | The four collections start empty |
| `BingoTasks.Catalog.LoadTasks` | utils/bingoTasks.js:46-71 | `loadTasks` on the parsed list leaves the collections as the fold over the tasks gives |
| `BingoTasks.Catalog.CategoryPool` | utils/bingoTasks.js:102-105 | No bucket, no tasks; otherwise only loaded entries |
| `BingoTasks.Catalog.GamePool` | utils/bingoTasks.js:107-110 | No bucket, no tasks; otherwise only loaded entries |
| `BingoTasks.Catalog.AllTasksPool` | utils/bingoTasks.js:112-116 | One entry per listed id, in order |
| `BingoTasks.Catalog.TaskEntry` | utils/bingoTasks.js:122-124 | An entry exactly when the id was loaded, and that entry carries the id |
| `BingoTasks.Catalog.AllTaskEntries` | utils/bingoTasks.js:118-120 | The stored entries, the same as those of the full pool |
| `BingoTasks.Catalog.PoolsHoldEntries` | utils/bingoTasks.js:81-110 | A pool holds only loaded entries with non-empty text |
| `BingoTasks.Catalog.TasksMeta` | utils/bingoTasks.js:88-100 | Exactly the buckets with at least 25 ids are listed, categories and games apart |
| `BingoTasks.BucketToMeta` | utils/bingoTasks.js:73-79 | The count is the number of distinct ids, the label the title or else the value |
| `BingoTasks.PoolsMeta` | utils/bingoTasks.js:89-91 | Every bucket of at least 25 ids is listed, and nothing else |
| `BingoTasks.GetBucketTasks` | utils/bingoTasks.js:81-86 | `[]` for a missing bucket; otherwise the entries of its known ids, in order |
| `GameClient.Pick` | public/js/game.js:78-104 | A click selects cells exactly when it records an argument |
| `GameClient.PickCells` | public/js/game.js:78-104 | The `switch` of the click handler computes the positions and argument of `Pick` |
| `GameClient.TileArgRoundTrip` | public/js/game.js:78-81 | The tile argument `r+1,c+1` parses on the server to the tile itself |
| `GameClient.PickRoundTrip` | public/js/game.js:78-104 | Whatever a click selects, the server's parse of its argument recovers the same positions |
| `GameClient.DiagonalPick` | public/js/game.js:90-104 | Off both diagonals nothing is selected; on the main diagonal `main`; on the anti-diagonal only, `anti` |
| `GameClient.ClickedCell` | public/js/game.js:64-70 | A click counts exactly when both data attributes parse to an index from 0 to 4 |
| `GameClient.CardSelection` | public/js/game.js:114-120 | The whole-card selection is the 25 cells the server deals for an empty `card` argument |
| `GameClient.RerollPanel.constructor` | public/js/game.js:1 | No player is in reroll mode |
| `GameClient.RerollPanel.Enter` | public/js/game.js:3-32 | Entering again is a no-op; otherwise a fresh empty state |
| `GameClient.RerollPanel.ClearSelection` | public/js/game.js:129-140 | The selection and the argument are cleared |
| `GameClient.RerollPanel.SelectCard` | public/js/game.js:114-120 | All 25 cells with an empty argument |
| `GameClient.RerollPanel.TypeChange` | public/js/game.js:34-59 | A new type clears the selection |
| `GameClient.RerollPanel.Click` | public/js/game.js:61-112 | A click without a state, without a type, in `card` mode or off the card changes nothing; otherwise the state takes the click's positions and argument |
| `GameClient.RerollPanel.SelectAt` | public/js/game.js:76-111 | The state takes the positions and argument of `Pick`, and still agrees with the server |
| `GameClient.RerollPanel.SelectRandomTile` | public/js/game.js:233-242 | A random tile on the card with its matching 1-based argument |
| `GameClient.RerollPanel.Exit` | public/js/game.js:158-170 | The player's state is dropped |
| `GameClient.RerollPanel.Confirm` | public/js/game.js:245-258 | Nothing is sent without a type or a required argument; otherwise the type (`random` sent as `tile`) and argument are sent |
| `GameClient.ConfirmedRequestMatches` | public/js/game.js:245-258 | What a confirmed request asks the server to re-deal is what was highlighted |
| `GameClient.ScoreBounds` | public/js/game.js:177-212 | A score is at most 12 and a stamped count at most 25 |
| `GameClient.FullCardScore` | public/js/game.js:177-212 | A fully stamped card scores 12 with 25 stamped tiles |
| `GameClient.ComputeScore` | public/js/game.js:177-212 | The loops compute the completed rows, columns and diagonals and the stamped count |
| `GameClient.CountMarked` | public/js/game.js:183-185 | The tile loop counts the stamped tiles |
| `GameClient.CountColumns` | public/js/game.js:191-200 | The column loop with `break` counts the completed columns |
| `GameClient.InsertRanked` | public/js/game.js:216 | Inserting into a ranked list keeps it ranked and adds exactly that row |
| `GameClient.SortStandings` | public/js/game.js:216 | The sort gives a permutation ordered by score, then stamped count, both descending |
| `GameClient.Leaderboard` | public/js/game.js:177-216 | One row per player, ranked, and exactly the players' scores |
| `Timer.FieldsRecombine` | public/js/timer.js:229-233 | Hours, minutes and seconds add back up to the count, minutes and seconds below 60, hours shown exactly from 3600 up |
| `Timer.DisplayUnderAnHour` | public/js/timer.js:229-239 | Under an hour the display is `MM:SS` and reads back as the count |
| `Timer.DisplayWithHours` | public/js/timer.js:229-239 | From one to a hundred hours the display is `HH:MM:SS` and reads back as the count |
| `Timer.UrgencyBands` | public/js/timer.js:249-268 | Danger exactly at 60 seconds or fewer, warning exactly above 60 up to 300, neither otherwise |
| `Timer.ButtonsByStatus` | public/js/timer.js:121-151 | Start only before the timer runs, pause only while it runs, resume only while paused, reset in both; none when expired |
| `Timer.TicksCountDown` | public/js/timer.js:209-225 | Unpaused, `n` ticks take `n` seconds off and stop at zero |
| `Timer.DurationOf` | public/js/timer.js:11 | The parsed duration, or 0 when it does not parse |
| `Timer.StatusOf` | public/js/timer.js:12 | The given status, or `not_started` when absent or empty |
| `Timer.GameTimer.constructor` | public/js/timer.js:7-32 | The attributes are read, and a running timer with a start time resumes from the time left |
| `Timer.GameTimer.Init` | public/js/timer.js:84-93 | A running timer with a start time recomputes the time left and counts down; otherwise it shows the duration |
| `Timer.GameTimer.CalculateRemainingTime` | public/js/timer.js:193-198 | The duration less the whole seconds elapsed, never below zero |
| `Timer.GameTimer.StartCountdown` | public/js/timer.js:200-227 | The interval runs and the display shows the time left |
| `Timer.GameTimer.Stop` | public/js/timer.js:271-276 | The interval stops and nothing else changes |
| `Timer.GameTimer.Tick` | public/js/timer.js:209-225 | Unless paused or at zero one second comes off, the display and urgency follow, a sync is asked at each multiple of 30, and the countdown stops at zero |
| `Timer.GameTimer.HandleTimerStarted` | public/js/timer.js:155-162 | Running from the server's start time, with the server's non-zero remaining seconds or else the duration |
| `Timer.GameTimer.HandlePaused` | public/js/timer.js:164-169 | Paused: counting stops, the time left stays |
| `Timer.GameTimer.HandleResumed` | public/js/timer.js:171-180 | Running again, adopting the server's remaining seconds only when given |
| `Timer.GameTimer.HandleReset` | public/js/timer.js:182-191 | Not started, no start time, the whole duration left, not paused, stopped |
| `Timer.GameTimer.ResetToInitial` | public/js/timer.js:74-82 | Not started with the whole duration left, its urgency and the start button |
| `Timer.GameTimer.HandleTimerUpdate` | public/js/timer.js:278-285 | The server's remaining seconds and their urgency, when given |
| `Timer.GameTimer.HandleExpiry` | public/js/timer.js:287-294 | Stopped at zero, showing `00:00` |
| `Picker.FromSeconds` | public/js/timer-picker.js:327-332 | The hours and minutes are clamped to 12 and 59, never negative for a non-negative total, and below 13 hours they are the total less under a minute |
| `Picker.SetThenGet` | public/js/timer-picker.js:315-332 | Setting a value the wheels can show and reading it back gives it again |
| `Picker.GetThenSet` | public/js/timer-picker.js:315-332 | Setting what was read changes nothing |
| `Picker.SetClamps` | public/js/timer-picker.js:329-331 | From 13 hours up the hours wheel stays at 12 |
| `Picker.DisplayValueFormat` | public/js/timer-picker.js:320-325 | The display is `HH:MM:00` with two digits each, reading back as the wheels |
| `Picker.Emit` | public/js/timer-picker.js:347-351 | A new event only for a total other than the last one sent, and that total remembered |
| `Picker.EmitOnce` | public/js/timer-picker.js:347-351 | Two emits without a change send one event |
| `Picker.TimerPicker.constructor` | public/js/timer-picker.js:7-28 | 0 hours and 5 minutes, and with a container one event for 300 seconds |
| `Picker.TimerPicker.EmitChange` | public/js/timer-picker.js:347-372 | Without a container nothing is sent; otherwise an event only when the total changed |
| `Picker.TimerPicker.SetValue` | public/js/timer-picker.js:327-341 | The wheels take the clamped hours and minutes; with a container it completes and an event follows when the total changed; without one the values are stored, the call throws and no event is sent |
| `Picker.TimerPicker.ResetToDefault` | public/js/timer-picker.js:343-345 | 0 hours, 5 minutes, value 300; it completes exactly when there is a container, as `setValue` |
| `Picker.TimerPicker.UpdateSelectedValue` | public/js/timer-picker.js:228-247 | The wheel's item value, read by `parseInt(..., 10)`, is taken unless it does not parse, and an event follows exactly when the total changed; without a container no event is sent |
| `Picker.GenerateWheelItems` | public/js/timer-picker.js:73-88 | Two padding rows, the values from min to max with two-digit labels, two padding rows |
| `Js.Pad2` | public/js/timer.js:235-238 | `padStart(2, '0')`: at least two characters, exactly two digits for 0 to 99 |
| `Js.Pad2Value` | public/js/timer.js:235-238 | A padded number below 100 reads back as itself |
| `Js.ParseIntOfNatToString` | server.js:64-65 | `parseInt` of a number written out gives the number |
| `Js.ParseDecimalOfNatToString` | public/js/timer-picker.js:230 | `parseInt(String(n), 10)` gives `n` back, so every value a wheel item carries is read as written |
| `Js.TrimIdempotent` | utils/bingoTasks.js:24 | Trimming twice is trimming once |
| `Js.TrimStartDropsWhite` | utils/bingoTasks.js:24 | Everything cut off at the start is white space |
| `Js.TrimEndDropsWhite` | utils/bingoTasks.js:24 | Everything cut off at the end is white space |
| `Js.TrimDropsOnlyWhite` | utils/bingoTasks.js:24 | `trim` keeps one stretch of the string, only white space lies before and after it, and the stretch has no white space at its ends |

## Left out

- HTTP routes, sessions, `generateCode`, and the `chat_message` handler are
  transport or I/O with no game logic.
- Prisma reads and writes are map updates. Socket.io emits are entries in a
  ghost log.
- Each handler runs as one atomic step; the interleavings of its `await`s are
  not modelled. That includes the asynchronous clearing after a passed vote,
  which the model folds into the `cast_vote` step.
- Randomness comes in as parameters:
  - the shuffles behind `generateCard` and `new_game` are the `draws`;
  - the pick inside `rerollCard` is a nondeterministic choice;
  - the random tile of `selectRandomTile` is the `r`, `c` parameters.
- `JSON.stringify` card comparison is modelled as structural equality.
- `Date` values are integer milliseconds.
- The file loaders of utils/i18n.js and utils/bingoTasks.js are left out; the
  dictionaries and the task list are inputs. `translateTaskText`,
  `getBingoDictionary` and `getSupportedLocalesMeta` are not modelled: they
  read the per-locale task dictionaries, which are file data.
- `BingoTasks.Catalog.TasksMeta`: returns sets, because the `localeCompare` order of the lists is
  locale data and is not modelled.
- `BingoTasks.Catalog.AllTaskEntries`: returns a set, because the `Map` value order is not modelled.
- `GameClient.SortStandings`: an insertion sort on a sequence stands for the in-place `Array.sort`;
  the order of rows with equal score and stamped count is not stated.
- UI-only code is rendering, with no state the game logic depends on:
  - the DOM of game.js (`highlightSelection`, the leaderboard markup);
  - in timer.js, `updateStatusText` and the expiry modal;
  - in timer-picker.js, `setupWheel`, the scroll listeners, `snapToNearestItem`,
    `updateItemOpacity`, `getWheelMetrics`,
    `updateSelectionIndicatorPosition`, `getPaddingCount` and `handleResize`;
  - the HTML strings of `generateWheelItems`, modelled as a list of items;
  - the other pages' scripts and the service worker.
- `syncWithGame` (public/js/timer.js:34-72), the re-sync of the timer from a
  game record, is not modelled. It sets the enabled flag, the duration,
  `pauseOnReroll`, the status, the start time, the time left and the paused
  flag, and starts or stops the countdown.
- `Picker.TimerPicker.SetValue`: assumes the wheels report back the values just set. The
  source's `setupWheel` and `updateSelectedValue` re-read them from the DOM,
  which is left out. Without a container the `TypeError` thrown from
  `setupWheel(null, ...)` is only the result `completed == false`; the
  exception does not reach a caller.
- `Picker.TimerPicker.ResetToDefault`: the same holds, since it is `setValue(300)`.
- `Picker.TimerPicker.constructor`: its single `Change(0, 5, 300)` event rests on the same
  assumption, since `init` re-reads both wheels through `addScrollListeners`
  and `updateSelectedValue` before `emitChange`.
- `I18n.NormalizeLocale`: lower-casing is ASCII only.
  `toLowerCase` follows Unicode, so the two differ on non-ASCII locale text.
- `BingoTasks.CapitalizeAll`, and with it `BingoTasks.Titleize`: upper-casing is
  ASCII only. `toUpperCase` follows Unicode (`é` becomes `É`, `ß` becomes `SS`),
  so titles of non-ASCII words differ.
- `I18n.GetNested`, and `I18n.Walk` below it: a dictionary value is a string or a nested object, with
  no arrays. `hasOwnProperty` also finds the indices and the `length` of a
  string or an array (`a.length` on `{a: "hi"}` is `2` in the source), where
  the model finds nothing.
- `I18n.TranslateItemText`, through `I18n.ItemEntry`: `dict.items?.[text]` also finds inherited
  properties, so for a text such as `constructor` or `toString` the source
  returns a function where the model falls back to the text itself.
- `Engine.Server.ThrowFlag`: the flag's `row` and `col`, which `throw_flag` stores without
  `parseInt`, are assumed to arrive as numbers. A string payload such as
  `"2"` would still find the cell through `card["2"]["3"]` in regular mode,
  but the VS uphold test `s.row === voteState.row` would then never match an
  integer stamp, so no stamp would be removed; the model does not capture this.
- `BingoTasks.SanitizeValue`: a raw task field (`BingoTasks.Raw`) is missing, a string, an
  integer or a boolean. Fractional numbers, arrays and objects, whose
  `String(value)` forms the source would trim and keep, are not modelled.
- `GameClient.RerollPanel.Exit`: for a player without a state the source throws reading
  `state.selectedCells`. The model drops nothing and keeps the panel as it
  was.
- `Timer.GameTimer.Tick`: the sync request and the stop at zero are stated, but the socket emit itself
  is only the returned flag.
- `Engine.Server.NewGame`: requires at least as many usable shuffles as the round needs. The
  source's `do ... while` loop has no termination bound.
- `Engine.Server.constructor`: requires a prompt list of at least 25 items, so every dealt card is 5x5.
  The real `items.json` is much longer.

## Findings

| source | as written | input that shows it | evidently intended | confidence | as-written member | corrected member |
|---|---|---|---|---|---|---|
| server.js:119-137 | VS mode is recognised by a non-empty list whose first element has `row`; an empty stamp list falls into the regular branch, which reads `card[0][0]` of `[]` and throws | a VS player removes their only stamp: `stampedSquares = []` is saved, then `checkWin([], rules)` throws, the rejection is unhandled, and no `update_state` is broadcast | an empty stamp list is a VS board with nothing stamped: no win, and the stamp handler broadcasts the new state | not executed | `ServerWin.LegacyThrowsOnEmptyStamps` | `ServerWin.VsCheck`, `Engine.StampVsCorrection` |
| server.js:127-129 | the VS branch writes `stampedGrid[row][col]` without a bounds check, and `stamp` stores coordinates unchecked, so `stampedGrid[5]` is `undefined` and the write throws | a VS stamp request with `row = "5"`: the stamp is saved, then `checkWin` throws and nothing is broadcast | off-board stamps mark nothing, as in utils/checkWin.js | not executed | `ServerWin.LegacyThrowsOnOffBoardRow` | `ServerWin.VsWinsNeverThrows`, `Engine.StampVsCorrection` |
