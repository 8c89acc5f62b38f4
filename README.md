# Match3 blast engine and level loader, in Dafny

This project models the core of the Match3 game (C#, Unity):

- **The board engine** (`Board`). A move swaps the items of a cell and one of its four neighbours. If the moved item is a blast item, the engine tries its blast rules in order. Each rule runs a breadth-first flood fill (`CheckBlastTile`) from the moved cell. The fill follows the rule's direction mask over cells whose item has the same type. It writes the cells it finds into a fixed-size buffer and counts, per direction, how many new cells each direction found. The first rule whose size requirements (`BlastRule.IsBlastSizeValid`) hold supplies the blasted cells and its name. When no rule holds, the swap is undone.
- **The flag enumerations** `Direction` and `ItemType`, and the cell record `BoardCell`.
- **The board tests**: their grid builders and their five scenarios.
- **The text level format** (`TextFileLevelDataProvider.ParseLevel`):
  - a header line `<width> <height> <moves>`;
  - then `height` rows of `width` cell tokens, separated or written compactly;
  - blank lines and `//` comments are skipped.
- **The validated `LevelData`** and its row-major accessors.
- **The saturating `ProgressCounter`**.

How the C# is rendered:

- In the level and counter modules (`Int32s`, `Levels`, `LevelTokens`, `LevelParser`, `Progress`), C# `int` is a Dafny `Int32` subset type. Unchecked wrap-around is written out with `Int32s.Wrap32` where the source can overflow.
- The engine modules (`Cells`, `Rules`, `FloodFill`, `Match`, `GridRules`, `TestBoards`, `BoardScenarios`) use unbounded `int` and `nat`. Their values are cell indexes, link fields, tallies and selection counts. Each is bounded by the length of the cell array or the selection buffer, so it stays within `int` once the board exists. The products that build a board are the exception (see "## Left out").
- The flag enums are `bv32` values, and `HasFlag` is `mask & flag == flag`.
- Exceptions become `Result`/`Option` error values. The error datatypes have one case per throw site.
- The board is a class. It holds a `BoardCell` array updated in place and the item array.
- `CheckBlastTile`, the rule loop of `OnBoardUpdate`, `GetContentLines`, `ParseLevel`'s row loop, `TokenizeRow`, `IsBlastSizeValid` and the test builders are methods with loops. Each is proved equal to a specification function (`FloodFill.Fill`, `Match.EvalRules`, `LevelTokens.ContentLines`, `LevelParser.ParseLevelSpec`, …). The properties are then proved about those functions.
- `OnBoardUpdate` as a whole is proved to compute `Match.Move`.

## Model

| member | source | states |
|---|---|---|
| Directions.Flag | Assets/Module/Game/Core/Board/Board.cs:175 | `(Direction)(1 << i)` for a dense index below `Direction.Count` is a single non-zero bit |
| Directions.GetDirectionIndex | Assets/Module/Game/Core/Board/Board.cs:194 | a single named direction maps to a dense index below `Count` whose flag is that direction |
| Directions.HasFlag | Assets/Module/Game/Core/Util/BlastRule.cs:35 | `Enum.HasFlag` on directions: the empty flag and the mask itself are always held; the empty mask holds no non-empty flag |
| Directions.FlagNames | Assets/Module/Util/Enum/Direction.cs:3-14 | dense indices 0..7 are Up, Down, Right, Left, Up_Right, Up_Left, Down_Right, Down_Left, the order of the enum and of the neighbour array |
| Directions.FlagsAreDistinctBits | Assets/Module/Util/Enum/Direction.cs:5-12 | each `1 << i` is a named direction, and two different ones share no bit |
| Directions.IndexOfFlag | Assets/Module/Util/Enum/Direction.cs:5-12 | flag and dense index are inverse bijections between 0..7 and the named directions |
| Directions.CountIsLeft | Assets/Module/Util/Enum/Direction.cs:13 | `Count` (8) read as a mask is `Left` and holds no other single direction |
| Directions.OrComposes | Assets/Module/Game/Core/Board/Board.cs:175 | a single direction is in `a \| b` iff it is in `a` or in `b` |
| Directions.AxisMasks | Assets/Module/Game/Core/Board/Board.cs:33-65 | `Up\|Down` holds exactly indices 0, 1; `Right\|Left` exactly 2, 3; `Right\|Up` exactly 0, 2 |
| Directions.EmptyFlagAlwaysHeld | Assets/Module/Game/Core/Util/BlastRule.cs:35 | `HasFlag` with the zero flag is true for every mask |
| ItemTypes.NoneHasNoCapability | Assets/Module/Game/Core/Item/ItemType.cs:3 | `None` is 0 and carries neither the Blast, Special nor Obstacle bit |
| ItemTypes.BlastColoursAreBlast | Assets/Module/Game/Core/Item/ItemType.cs:5-9 | every blast colour passes the `HasFlag(ItemType.Blast)` gate of a move |
| ItemTypes.NonBlastTypes | Assets/Module/Game/Core/Item/ItemType.cs:10-14 | specials and obstacles fail the blast gate |
| ItemTypes.AllTypesDistinct | Assets/Module/Game/Core/Item/ItemType.cs:1-15 | the twelve named values are pairwise distinct, so type equality in the fill tells them apart |
| ItemTypes.ColoursOverlapAsFlags | Assets/Module/Game/Core/Item/ItemType.cs:6-9 | Blast_Yellow contains every bit of Blast_Red, so the colours are not disjoint flags |
| ItemTypes.HasFlag | Assets/Module/Game/Core/Board/Board.cs:106 | `Enum.HasFlag` on item types: the empty flag and the type itself are always held; `None` holds no non-empty flag |
| Cells.BoardCell.GetDirectionIndex | Assets/Module/Game/Core/Board/BoardCell.cs:13-28 | each cardinal direction returns its stored link; any other value, combined masks included, returns -1 |
| Cells.LookupStaysOnBoard | Assets/Module/Game/Core/Board/Board.cs:83-88 | on well-formed cells the target of a move is -1 or a cell index |
| Rules.IsBlastSizeValid | Assets/Module/Game/Core/Util/BlastRule.cs:42-63 | the nested loops return true iff every requirement's masked tally plus one reaches its `min` |
| Rules.MinCountFind | Assets/Module/Game/Core/Util/BlastRule.cs:32-40 | 0 for a direction outside the rule's mask, otherwise the `minCount` entry at the direction's index |
| Rules.ZeroMinCount | Assets/Module/Game/Core/Util/BlastRule.cs:18 | the never-written fixed buffer holds `Count` zeros |
| Rules.MinCountFindOfZeroBuffer | Assets/Module/Game/Core/Util/BlastRule.cs:32-40 | with that buffer `MinCountFind` is 0 for every direction |
| Rules.NoRequirementsAlwaysValid | Assets/Module/Game/Core/Util/BlastRule.cs:44-62 | a rule with no requirements is valid for every tally |
| Rules.MaskedSumIgnoresOtherDirections | Assets/Module/Game/Core/Util/BlastRule.cs:48-55 | tallies outside the mask do not change the masked sum |
| Rules.RequirementIgnoresOtherDirections | Assets/Module/Game/Core/Util/BlastRule.cs:46-60 | a requirement depends only on the tallies of its own directions |
| Rules.MaskedSumMonotone | Assets/Module/Game/Core/Util/BlastRule.cs:48-55 | raising tallies never lowers a masked sum |
| Rules.ValidityMonotone | Assets/Module/Game/Core/Util/BlastRule.cs:42-63 | raising any tally never makes a valid rule invalid |
| Rules.MaskedSumOfFlags | Assets/Module/Game/Core/Util/BlastRule.cs:48-55 | the masked sum is the sum of exactly the tallies whose direction is in the mask |
| Rules.SeedCountedImplicitly | Assets/Module/Game/Core/Util/BlastRule.cs:57 | a requirement of `min` along an axis holds iff that axis' two tallies reach `min - 1`: the seed counts as one |
| Int32s.Wrap32 | Assets/Module/Game/Core/Level/LevelData.cs:38 | the unchecked `int` result is congruent to the exact value modulo 2^32 |
| Int32s.Wrap32Identity | Assets/Module/Util/ProgressCounter.cs:18 | wrapping leaves a value unchanged iff it fits an `int` |
| Progress.Clamp | Assets/Module/Util/ProgressCounter.cs:18 | `math.clamp`: within bounds when lo ≤ hi, unchanged iff already inside, lo below, hi above; lo when lo > hi |
| Progress.AdvanceAsWritten | Assets/Module/Util/ProgressCounter.cs:18 | the value as written, with the wrapping sum: still never negative and never above a non-negative maximum |
| Progress.AsWrittenReachesMax | Assets/Module/Util/ProgressCounter.cs:16-24 | as written, a non-negative increase makes `IsMax` hold iff the sum reached `maxValue` without passing `int.MaxValue`; past it the counter drops to 0 |
| Progress.Advance | Assets/Module/Util/ProgressCounter.cs:16-19 | the new value is never negative and never above a non-negative maximum |
| Progress.AdvanceExact | Assets/Module/Util/ProgressCounter.cs:18 | an increase landing in `0..maxValue` is exact; one below gives 0, one above gives `maxValue` |
| Progress.AdvanceSaturates | Assets/Module/Util/ProgressCounter.cs:16-19 | a counter at its maximum stays there under a non-negative amount; one at 0 stays at 0 under a non-positive amount |
| Progress.AdvanceMonotone | Assets/Module/Util/ProgressCounter.cs:16-19 | a larger amount never gives a smaller value |
| Progress.AdvanceReachesMax | Assets/Module/Util/ProgressCounter.cs:21-24 | after an increase `IsMax` holds iff the exact sum reached `maxValue` |
| Progress.AdvanceAgrees | Assets/Module/Util/ProgressCounter.cs:18 | the as-written and the exact counter agree whenever the sum fits an `int` |
| Progress.OverflowEmptiesCounter | Assets/Module/Util/ProgressCounter.cs:18 | as written, 1 of 10 plus `int.MaxValue` ends at 0; the exact counter ends at 10 |
| Progress.ProgressCounter.constructor | Assets/Module/Util/ProgressCounter.cs:9-14 | a new counter starts at 0 with the given id and maximum |
| Progress.ProgressCounter.IncreaseProgress | Assets/Module/Util/ProgressCounter.cs:16-19 | the value becomes `Advance` of the old value (the exact sum, clamped); id and maximum are unchanged |
| Progress.ProgressCounter.IsMax | Assets/Module/Util/ProgressCounter.cs:21-24 | no contract of its own: `value == maxValue`; what it means after an increase is `AdvanceReachesMax`, and as written `AsWrittenReachesMax` |
| Levels.NewLevelDataAsWritten | Assets/Module/Game/Core/Level/LevelData.cs:11-54 | as written, an accepted level's arrays have the wrapped product's length |
| Levels.GetIndex | Assets/Module/Game/Core/Level/LevelData.cs:66-69 | the `int` index is congruent to `y*width + x` modulo 2^32, and equal to it when the product and the sum fit an `int` |
| Levels.GetItem | Assets/Module/Game/Core/Level/LevelData.cs:56-59 | succeeds exactly when the computed index lies inside the item array, and then returns the entry at that index |
| Levels.IsExcluded | Assets/Module/Game/Core/Level/LevelData.cs:61-64 | succeeds exactly when the computed index lies inside the exclusion array, and then returns the flag at that index |
| Levels.NewLevelData | Assets/Module/Game/Core/Level/LevelData.cs:11-54 | succeeds iff width, height > 0, moves ≥ 0, both arrays are non-null and each has `width*height` entries; the level then holds exactly the arguments and is valid |
| Levels.NewLevelDataErrors | Assets/Module/Game/Core/Level/LevelData.cs:13-47 | the guards run in source order, and the first violated guard names the exception |
| Levels.ConstructorsAgree | Assets/Module/Game/Core/Level/LevelData.cs:38-47 | when the product fits an `int`, the as-written and the corrected constructor give the same result |
| Levels.WrappedSizeAccepted | Assets/Module/Game/Core/Level/LevelData.cs:38-47 | as written, a 65536×65536 level with empty arrays is accepted, is invalid, and its cell (0, 0) cannot be read; the corrected constructor rejects it |
| Levels.RowMajorRoundTrip | Assets/Module/Game/Core/Level/LevelData.cs:66-69 | the coordinates come back from `y*width + x` by division and remainder |
| Levels.RowMajorInRange | Assets/Module/Game/Core/Level/LevelData.cs:66-69 | a cell inside the rectangle has an index inside `0..width*height` |
| Levels.GetIndexInside | Assets/Module/Game/Core/Level/LevelData.cs:56-69 | on a valid level, `GetItem` and `IsExcluded` of a cell inside the rectangle read that cell's row-major entry without an exception |
| Levels.GetIndexCovers | Assets/Module/Game/Core/Level/LevelData.cs:66-69 | every entry index of a valid level is `GetIndex` of the coordinates `(i % width, i / width)`, which lie inside the rectangle |
| Levels.GetItemAliasesNextRow | Assets/Module/Game/Core/Level/LevelData.cs:56-59 | with no bounds check, column `width` of row `y` reads column 0 of row `y + 1` |
| LevelTokens.ReadLines | Assets/Module/Game/Core/Level/TextFileLevelDataProvider.cs:131-133 | the lines `ReadLine` returns contain no line break |
| LevelTokens.ReadLinesJoin | Assets/Module/Game/Core/Level/TextFileLevelDataProvider.cs:133 | the lines, concatenated, are the text with its line breaks removed: nothing else is lost |
| LevelTokens.IsWhiteSpace | Assets/Module/Game/Core/Level/TextFileLevelDataProvider.cs:135-136 | no contract of its own: the characters `char.IsWhiteSpace` accepts (space separators, U+0009 to U+000D, U+0085, U+00A0, U+2028, U+2029) |
| LevelTokens.Trim | Assets/Module/Game/Core/Level/TextFileLevelDataProvider.cs:135 | the trimmed text is empty iff the line is blank, and otherwise starts and ends with non-white space |
| LevelTokens.TrimSlice | Assets/Module/Game/Core/Level/TextFileLevelDataProvider.cs:135 | the trimmed text is a slice of the line with only white space cut off on either side |
| LevelTokens.GetContentLines | Assets/Module/Game/Core/Level/TextFileLevelDataProvider.cs:128-150 | the loop returns exactly the trimmed, non-blank, non-comment lines of the text, in order |
| LevelTokens.KeptSound | Assets/Module/Game/Core/Level/TextFileLevelDataProvider.cs:135-146 | what one line contributes is a trimmed, non-blank, non-comment line, if anything |
| LevelTokens.ContentLinesSound | Assets/Module/Game/Core/Level/TextFileLevelDataProvider.cs:128-150 | every content line is non-empty, trimmed and not a `//` comment |
| LevelTokens.JoinedSplit | Assets/Module/Game/Core/Level/TextFileLevelDataProvider.cs:133-147 | lines are handled one by one: cutting the lines anywhere splits the result at the same place |
| LevelTokens.ContentLinesKeep | Assets/Module/Game/Core/Level/TextFileLevelDataProvider.cs:133-147 | each line contributes its trimmed text at its own place among the others when it has content, and nothing otherwise |
| LevelTokens.Tokenize | Assets/Module/Game/Core/Level/TextFileLevelDataProvider.cs:177-180 | every token is non-empty and contains no space, tab or comma |
| LevelTokens.TokenizeJoin | Assets/Module/Game/Core/Level/TextFileLevelDataProvider.cs:179 | the tokens, concatenated, are the line with its separators removed |
| LevelTokens.TokenizeRoundTrip | Assets/Module/Game/Core/Level/TextFileLevelDataProvider.cs:177-180 | separator-free non-empty tokens written with single spaces tokenize back to themselves |
| LevelTokens.TokenizeFirst | Assets/Module/Game/Core/Level/TextFileLevelDataProvider.cs:179 | a token followed by a separator or the end of the line is the first token, and the rest tokenizes on its own |
| LevelTokens.ParseInt | Assets/Module/Game/Core/Level/TextFileLevelDataProvider.cs:71-84 | `int.TryParse` succeeds only when the token, with number white space cut off both ends, is an optional sign followed by digits; a negative value needs `-` |
| LevelTokens.TrimNumber | Assets/Module/Game/Core/Level/TextFileLevelDataProvider.cs:71-84 | the white space `NumberStyles.Integer` allows is cut off both ends: the result has no such character at either end, and a string without any is left as it is |
| LevelTokens.ParseSigned | Assets/Module/Game/Core/Level/TextFileLevelDataProvider.cs:71-84 | the sign-and-digits core of `int.TryParse`: succeeds only on an optional sign followed by digits, and gives a negative value only after `-` |
| LevelTokens.NumberWhiteIgnored | Assets/Module/Game/Core/Level/TextFileLevelDataProvider.cs:71-84 | U+0009–U+000D and spaces before or after a token do not change what it parses to |
| LevelTokens.ParseIntRoundTrip | Assets/Module/Game/Core/Level/TextFileLevelDataProvider.cs:71-84 | every `int` parses back from its decimal form |
| LevelTokens.DecimalValue | Assets/Module/Game/Core/Level/TextFileLevelDataProvider.cs:71-84 | the decimal digits written for a natural number read back as that number |
| LevelParser.LookupItemTable | Assets/Module/Game/Core/Level/TextFileLevelDataProvider.cs:10-25 | the per-character lookup equals a case-insensitive search of the six-entry table, and every key is one character (compact format supported) |
| LevelParser.EqualsIgnoreCase | Assets/Module/Game/Core/Level/TextFileLevelDataProvider.cs:109 | case-insensitive equality holds only between strings of equal length, and every string equals itself |
| LevelParser.LookupItem | Assets/Module/Game/Core/Level/TextFileLevelDataProvider.cs:10-19 | only a one-character token is found, and a level file can place neither a bare `Blast` nor any special item |
| LevelParser.ParseCell | Assets/Module/Game/Core/Level/TextFileLevelDataProvider.cs:107-121 | an excluded cell is empty and came from `X` in either case; any other cell is the table's item for its token; a failure names the token, which the table lacks |
| LevelParser.RowTokens | Assets/Module/Game/Core/Level/TextFileLevelDataProvider.cs:157-175 | every token of a row is non-empty, and a line whose only token is `width` characters long gives `width` tokens |
| LevelParser.RowTokensCompact | Assets/Module/Game/Core/Level/TextFileLevelDataProvider.cs:157-175 | a line whose single token is `width` characters long becomes its `width` one-character tokens, which spell the token; any other line keeps its tokens |
| LevelParser.CompactRowSpaced | Assets/Module/Game/Core/Level/TextFileLevelDataProvider.cs:157-175 | a compact row and the same characters written with spaces give the same tokens |
| LevelParser.TokenizeRow | Assets/Module/Game/Core/Level/TextFileLevelDataProvider.cs:157-175 | the loop filling the expanded array yields exactly the row's tokens |
| LevelParser.RowsOf | Assets/Module/Game/Core/Level/TextFileLevelDataProvider.cs:97-99 | there is one token row per level row |
| LevelParser.RowOfLine | Assets/Module/Game/Core/Level/TextFileLevelDataProvider.cs:99 | row `r` is the tokens of content line `r + 1` |
| LevelParser.RowCells | Assets/Module/Game/Core/Level/TextFileLevelDataProvider.cs:105-122 | a row has one cell per token |
| LevelParser.FillRow | Assets/Module/Game/Core/Level/TextFileLevelDataProvider.cs:105-122 | the column loop stops at the first unknown token and otherwise writes each cell's item and exclusion at its row-major index, touching nothing before the row |
| LevelParser.StoreToken | Assets/Module/Game/Core/Level/TextFileLevelDataProvider.cs:107-121 | one column: fails exactly when the token is unknown; otherwise the token's cell is written at `start + column` and no other entry changes |
| LevelParser.FillRows | Assets/Module/Game/Core/Level/TextFileLevelDataProvider.cs:97-123 | the row loop fails with the first bad row (wrong length, then unknown token) and otherwise fills both arrays with the whole grid |
| LevelParser.ReadRow | Assets/Module/Game/Core/Level/TextFileLevelDataProvider.cs:99-122 | one pass of the row loop keeps its invariant or reports the first bad row |
| LevelParser.ReadRowCells | Assets/Module/Game/Core/Level/TextFileLevelDataProvider.cs:99-122 | a row's error is its length first, then its first unknown token; a good row's cells are appended to the arrays |
| LevelParser.ParseBody | Assets/Module/Game/Core/Level/TextFileLevelDataProvider.cs:89-125 | a body that builds gives a valid level with exactly the header's width, height and moves and an `int`-sized cell count |
| LevelParser.BuildLevel | Assets/Module/Game/Core/Level/TextFileLevelDataProvider.cs:94-125 | allocating, filling and constructing computes the body specification |
| LevelParser.ParseLevel | Assets/Module/Game/Core/Level/TextFileLevelDataProvider.cs:48-126 | returns exactly the level, or the first exception in source order, that the specification of the file format gives |
| LevelParser.NoBadRow | Assets/Module/Game/Core/Level/TextFileLevelDataProvider.cs:97-123 | with no bad row, every row has `width` tokens and each of them parses |
| LevelParser.ParsedHeader | Assets/Module/Game/Core/Level/TextFileLevelDataProvider.cs:61-92 | a parsed level's width, height and moves are the first three header tokens; the sizes are positive and the file has all its rows |
| LevelParser.ParsedBody | Assets/Module/Game/Core/Level/TextFileLevelDataProvider.cs:94-125 | a parsed body is a valid level whose arrays are the row-major cells of its rows |
| LevelParser.ParseContentSuccess | Assets/Module/Game/Core/Level/TextFileLevelDataProvider.cs:48-126 | every level that parses is valid, fits an `int` cell count, and has as width, height and moves the first three header tokens |
| LevelParser.BodyCell | Assets/Module/Game/Core/Level/TextFileLevelDataProvider.cs:105-121 | cell (x, y) of a parsed body holds what token x of row y stands for |
| LevelParser.ParsedCell | Assets/Module/Game/Core/Level/TextFileLevelDataProvider.cs:97-121 | cell (x, y) of a parsed level holds what token x of content line y + 1 stands for |
| LevelParser.ExcludedCellsEmpty | Assets/Module/Game/Core/Level/TextFileLevelDataProvider.cs:109-113 | an excluded cell of a parsed level holds `None` |
| LevelParser.BodyAgrees | Assets/Module/Game/Core/Level/TextFileLevelDataProvider.cs:97-99 | the body reads content lines 1..height only |
| LevelParser.ExtraLinesIgnored | Assets/Module/Game/Core/Level/TextFileLevelDataProvider.cs:89-99 | appending lines to a file changes nothing unless the file was rejected for missing rows |
| LevelParser.ExtraHeaderTokensIgnored | Assets/Module/Game/Core/Level/TextFileLevelDataProvider.cs:61-84 | header tokens after the third change nothing |
| LevelParser.WhiteHeaderTokens | Assets/Module/Game/Core/Level/TextFileLevelDataProvider.cs:60-61 | a vertical tab is not a separator: `1<VT> 1 1` splits into `1<VT>`, `1`, `1` |
| LevelParser.WhiteHeaderNumber | Assets/Module/Game/Core/Level/TextFileLevelDataProvider.cs:71-74 | `int.TryParse("1<VT>")` succeeds with 1, the vertical tab being trailing white space |
| LevelParser.WhiteHeaderLevel | Assets/Module/Game/Core/Level/TextFileLevelDataProvider.cs:48-126 | the file `1<VT> 1 1` / `R` parses to the 1×1 level with one move and a red item |
| LevelParser.OneRedBody | Assets/Module/Game/Core/Level/TextFileLevelDataProvider.cs:94-125 | the body whose only row is `R` builds the 1×1 red level |
| LevelParser.ExampleHeader | Assets/Module/Game/Core/Level/TextFileLevelDataProvider.cs:61-84 | `2 1 5` reads as width 2, height 1, 5 moves |
| LevelParser.ExampleRow | Assets/Module/Game/Core/Level/TextFileLevelDataProvider.cs:157-175 | the compact row `rX` is a red item (lower case accepted) and an excluded cell |
| LevelParser.ExampleBody | Assets/Module/Game/Core/Level/TextFileLevelDataProvider.cs:94-125 | a body with the single row `rX` builds the 2×1 level |
| LevelParser.ExampleLevel | Assets/Module/Game/Core/Level/TextFileLevelDataProvider.cs:48-126 | the file `2 1 5` / `rX` parses to the 2×1 level with 5 moves, a red item and an excluded cell |
| FloodFill.Nbs | Assets/Module/Game/Core/Board/Board.cs:161-171 | eight candidates: the four links, then the diagonals through the up and down neighbours; each is -1 or a cell |
| FloodFill.ScanDirs | Assets/Module/Game/Core/Board/Board.cs:173-197 | a completed scan of the directions keeps the state well formed and only extends the selection and the queue |
| FloodFill.ScanSelects | Assets/Module/Game/Core/Board/Board.cs:190-196 | a joinable neighbour that fits is selected, queued and tallied in its direction |
| FloodFill.AddKeepsStateOk | Assets/Module/Game/Core/Board/Board.cs:192-195 | selecting a cell when the buffer has room keeps the state well formed |
| FloodFill.ScanOverflows | Assets/Module/Game/Core/Board/Board.cs:192 | a joinable neighbour with the buffer full aborts the fill (the span write throws) |
| FloodFill.ScanSkips | Assets/Module/Game/Core/Board/Board.cs:175-188 | a masked-out, missing, already selected or differently typed neighbour is passed over |
| FloodFill.Step | Assets/Module/Game/Core/Board/Board.cs:150-197 | a completed turn keeps the state well formed and selects more cells or shortens the queue |
| FloodFill.StepDequeues | Assets/Module/Game/Core/Board/Board.cs:152-159 | the dequeued cell is written to the buffer first unless already there; with the buffer full that write aborts |
| FloodFill.Run | Assets/Module/Game/Core/Board/Board.cs:150-198 | a completed loop ends with an empty queue |
| FloodFill.Turn | Assets/Module/Game/Core/Board/Board.cs:150-198 | a completed turn followed by the rest of the loop ends with an empty queue |
| FloodFill.TurnAdvances | Assets/Module/Game/Core/Board/Board.cs:150-198 | a completed turn hands on the rest of the loop and makes progress, which bounds the loop |
| FloodFill.ZeroTallies | Assets/Module/Game/Core/Board/Board.cs:115-116 | the tallies start as `Count` zeros |
| FloodFill.Fill | Assets/Module/Game/Core/Board/Board.cs:141-201 | a completed fill has `Count` tallies and at most `capacity` selected cells, all on the board |
| FloodFill.FillSound | Assets/Module/Game/Core/Board/Board.cs:141-201 | the seed comes first; entries are distinct cells of the seed's item type, each later one a masked step from an earlier one; the tallies count masked directions only and add up to the entries after the seed |
| FloodFill.FillComplete | Assets/Module/Game/Core/Board/Board.cs:141-201 | every joinable neighbour of a selected cell is selected: the fill is the whole connected same-type region |
| FloodFill.FillWithin | Assets/Module/Game/Core/Board/Board.cs:141-201 | if a region closed under the mask's steps fits in the buffer, the fill never overflows and stays inside it |
| Match.StandardRules | Assets/Module/Game/Core/Board/Board.cs:27-73 | the constructor installs three rules, each with a `Count`-entry `minCount` |
| Match.Swap | Assets/Module/Game/Core/Board/Board.cs:203-210 | the two cells exchange item indices; links, view indices and every other cell are unchanged |
| Match.SwapInvolution | Assets/Module/Game/Core/Board/Board.cs:133-136 | swapping back restores the cells |
| Match.SwapSymmetric | Assets/Module/Game/Core/Board/Board.cs:203-210 | the order of the two cells does not matter |
| Match.SwapPermutesItems | Assets/Module/Game/Core/Board/Board.cs:203-210 | a swap permutes the item indices (none lost or copied) and keeps the board well formed |
| Match.EvalRules | Assets/Module/Game/Core/Board/Board.cs:108-128 | a rule that fires is one of the rules examined |
| Match.EvalRulesSpec | Assets/Module/Game/Core/Board/Board.cs:108-128 | rule k fires iff all earlier rules were rejected and it was accepted; none fires iff all were rejected; else some rule aborted after earlier rejections |
| Match.EvalRulesStep | Assets/Module/Game/Core/Board/Board.cs:110-127 | a rejected rule passes on to the next, an aborted one aborts, any other fires with its selection |
| Match.RejectedExtends | Assets/Module/Game/Core/Board/Board.cs:108-128 | a rejected rule extends a run of rejected rules |
| Match.EvalRulesNeverAborts | Assets/Module/Game/Core/Board/Board.cs:108-128 | the loop aborts only through a rule that aborts |
| Match.EvalRulesFindsFirst | Assets/Module/Game/Core/Board/Board.cs:108-128 | after a run of rejected rules, an accepted rule is what the loop returns |
| Match.Move | Assets/Module/Game/Core/Board/Board.cs:76-139 | a move keeps the links and well-formedness; an exception other than the buffer's leaves the cells untouched |
| Match.MoveGuards | Assets/Module/Game/Core/Board/Board.cs:81-87 | an out-of-range cell and a missing neighbour each throw exactly when their condition holds |
| Match.MoveReturnRestores | Assets/Module/Game/Core/Board/Board.cs:104-136 | a returned move leaves the cells as before with no blasted tiles and no rule name; a non-blast item always returns |
| Match.MoveBlast | Assets/Module/Game/Core/Board/Board.cs:104-129 | a blast moved a blast item and kept the swap; its tiles are the first accepted rule's complete fill from the source cell: distinct, seed first, all of the type the target's item has |
| Match.MoveBlastFired | Assets/Module/Game/Core/Board/Board.cs:119-127 | a blast reports the selection and name of the rule that fired on the swapped board |
| Match.MoveBlastsWhenRuleFires | Assets/Module/Game/Core/Board/Board.cs:106-127 | a blast item whose rules fire on the swapped board always blasts, with that rule's tiles and name |
| Match.MoveOverflowKeepsSwap | Assets/Module/Game/Core/Board/Board.cs:90-124 | the buffer exception comes after the swap, which it leaves in place |
| Match.MoveOverflowsExactly | Assets/Module/Game/Core/Board/Board.cs:106-124 | the buffer exception is raised iff a blast item is moved and the rule loop on the swapped board aborts |
| Match.Board.constructor | Assets/Module/Game/Core/Board/Board.cs:20-74 | zeroed arrays of `width*height` cells and twice as many items, and the three standard rules |
| Match.Board.InjectState | Assets/Test/BoardTest/Editor/BlastRuleTests.cs:33-34 | the board adopts the given arrays themselves (the tests' reflection writes) |
| Match.Board.SwapCellItem | Assets/Module/Game/Core/Board/Board.cs:203-210 | the cell array becomes `Swap` of its old contents |
| Match.Board.OnBoardUpdate | Assets/Module/Game/Core/Board/Board.cs:76-139 | the result, or the exception, and the new cells are exactly those of `Move` on the old state |
| Match.Board.EvaluateRules | Assets/Module/Game/Core/Board/Board.cs:104-129 | the rule loop reports an abort, or the fired rule's tiles and name, or no blast, exactly as `EvalRules` |
| Match.Board.CheckRule | Assets/Module/Game/Core/Board/Board.cs:110-119 | one rule: aborted iff the rule aborts; otherwise it blasts iff not rejected, and then its selection is the accepted one |
| Match.Board.CheckBlastTile | Assets/Module/Game/Core/Board/Board.cs:141-201 | the queue loop computes `Fill`: it throws iff the fill overflows; otherwise the count, the buffer prefix, the -1 tail and the tallies are the fill's |
| Match.Board.NeighbourIndexes | Assets/Module/Game/Core/Board/Board.cs:161-171 | the stack array of neighbours is the eight candidates `Nbs` |
| Match.Board.ScanNeighbours | Assets/Module/Game/Core/Board/Board.cs:173-197 | the direction loop computes `ScanDirs` for the dequeued cell, abort included |
| Match.Board.ScanDirection | Assets/Module/Game/Core/Board/Board.cs:175-196 | one direction of that loop takes one step of `ScanDirs` |
| Match.AddNeighbour | Assets/Module/Game/Core/Board/Board.cs:190-196 | a matching neighbour is written, queued and tallied, one step of `ScanDirs` |
| Match.SelectDequeued | Assets/Module/Game/Core/Board/Board.cs:152-159 | the start of a turn either aborts like `Step` or leaves the state `Step` scans from |
| Match.Select | Assets/Module/Game/Core/Board/Board.cs:192-195 | the buffer gains the cell at position n, and only direction i's tally grows by one |
| Match.IndexOf | Assets/Module/Game/Core/Board/Board.cs:155 | `Span.IndexOf` is -1 iff the value is absent, and otherwise the position of its first occurrence |
| Match.NotInBuffer | Assets/Module/Game/Core/Board/Board.cs:185 | a cell index is in the -1-padded buffer iff it is in its used prefix |
| GridRules.MaskTallies | Assets/Module/Game/Core/Board/Board.cs:194 | for each standard mask the tallies of its directions add up to the selection size minus one; for `Right\|Up` the down and left tallies are 0 |
| GridRules.SpecialRuleThreshold | Assets/Module/Game/Core/Board/Board.cs:29-41 | Special 1 is valid iff the fill found ≥ 2 cells up and ≥ 2 right, so at least five cells |
| GridRules.VerticalRuleThreshold | Assets/Module/Game/Core/Board/Board.cs:43-54 | the vertical rule is valid iff its fill selected at least three cells |
| GridRules.HorizontalRuleThreshold | Assets/Module/Game/Core/Board/Board.cs:56-67 | the horizontal rule is valid iff its fill selected at least three cells |
| GridRules.GridLinks | Assets/Test/BoardTest/Editor/BlastRuleTests.cs:161-170 | on a test grid the links of (x, y) are the neighbouring coordinates, -1 at the edges |
| GridRules.WholeBoardFits | Assets/Module/Game/Core/Board/Board.cs:34 | a buffer as large as the board never overflows, whatever the mask |
| GridRules.ColumnLinks | Assets/Test/BoardTest/Editor/BlastRuleTests.cs:166-167 | vertical links of a column's cell stay in the column |
| GridRules.RowLinks | Assets/Test/BoardTest/Editor/BlastRuleTests.cs:168-169 | horizontal links of a row's cell stay in the row |
| GridRules.ColumnStepStays | Assets/Module/Game/Core/Board/Board.cs:161-171 | an `Up\|Down` step from a column's cell stays in the column |
| GridRules.ColumnClosed | Assets/Module/Game/Core/Board/Board.cs:43-54 | a column is closed under the vertical rule's steps |
| GridRules.RowStepStays | Assets/Module/Game/Core/Board/Board.cs:161-171 | a `Right\|Left` step from a row's cell stays in the row |
| GridRules.RowClosed | Assets/Module/Game/Core/Board/Board.cs:56-67 | a row is closed under the horizontal rule's steps |
| GridRules.VerticalFillInColumn | Assets/Module/Game/Core/Board/Board.cs:48 | on a grid the vertical fill stays in the seed's column, so `height` entries suffice |
| GridRules.HorizontalFillInRow | Assets/Module/Game/Core/Board/Board.cs:61 | on a grid the horizontal fill stays in the seed's row, so `width` entries suffice |
| GridRules.SwapOnGrid | Assets/Module/Game/Core/Board/Board.cs:203-210 | a swap leaves a grid board a grid board |
| GridRules.AxisFillsComplete | Assets/Module/Game/Core/Board/Board.cs:43-67 | on a grid the vertical and horizontal fills never overflow |
| GridRules.GridRulesNeverOverflow | Assets/Module/Game/Core/Board/Board.cs:108-128 | on a grid none of the three rules aborts |
| GridRules.RulesNeverOverflow | Assets/Module/Game/Core/Board/Board.cs:108-128 | the rules never abort when the board fits Special 1's buffer and the axis fills complete |
| GridRules.GridMoveNeverOverflows | Assets/Module/Game/Core/Board/Board.cs:76-139 | on a grid board with the standard rules no move raises the buffer exception |
| TestBoards.IndexOfRoundTrip | Assets/Test/BoardTest/Editor/BlastRuleTests.cs:147-150 | coordinates come back from `IndexOf` by division and remainder |
| TestBoards.IndexOfInRange | Assets/Test/BoardTest/Editor/BlastRuleTests.cs:147-150 | coordinates inside the rectangle give an index inside `0..width*height` |
| TestBoards.Grid | Assets/Test/BoardTest/Editor/BlastRuleTests.cs:152-175 | the grid has `width*height` cells |
| TestBoards.BuildCells | Assets/Test/BoardTest/Editor/BlastRuleTests.cs:152-175 | the nested loops fill a fresh array with exactly the grid |
| TestBoards.GridAt | Assets/Test/BoardTest/Editor/BlastRuleTests.cs:161-170 | the cell at (x, y) holds item `IndexOf(x, y)` and the four edge-aware links |
| TestBoards.GridHoldsOwnItem | Assets/Test/BoardTest/Editor/BlastRuleTests.cs:165 | cell i holds item i |
| TestBoards.GridWellFormed | Assets/Test/BoardTest/Editor/BlastRuleTests.cs:152-175 | every link is -1 or a cell and every item index addresses an item |
| TestBoards.GridSymmetric | Assets/Test/BoardTest/Editor/BlastRuleTests.cs:166-169 | links are mutual: right/left and up/down point back |
| TestBoards.BuildItems | Assets/Test/BoardTest/Editor/BlastRuleTests.cs:177-188 | `2*width*height` items; the first half have the default type and health 1, the rest are zero |
| TestBoards.RegionSizes | Assets/Module/Game/Core/Board/Board.cs:43-67 | a grid column has at most `height` cells, a row at most `width`, the board at most `width*height`: the buffer sizes of the axis rules and Special 1 |
| BoardScenarios.Painted | Assets/Test/BoardTest/Editor/BlastRuleTests.cs:28-31 | painting keeps the item count |
| BoardScenarios.PaintItems | Assets/Test/BoardTest/Editor/BlastRuleTests.cs:28-31 | the painting loop retypes exactly the listed items |
| BoardScenarios.TestBoardPainted | Assets/Test/BoardTest/Editor/BlastRuleTests.cs:17-34 | a test board is a well-formed grid whose painted cells hold the paint type and the others the default |
| BoardScenarios.SelectsPainted | Assets/Module/Game/Core/Board/Board.cs:190-195 | on a painted test board a completed fill selects painted cells only, each once, seed first |
| BoardScenarios.SpecialRejectsFewReds | Assets/Module/Game/Core/Board/Board.cs:29-41 | with at most four red cells the Special 1 rule is rejected, so the tests' blasts come from the axis rules |
| BoardScenarios.ColumnOfFourSelected | Assets/Test/BoardTest/Editor/BlastRuleTests.cs:12-41 | the vertical fill from cell 12 selects exactly cells 7, 12, 17, 22 and is accepted |
| BoardScenarios.ColumnOfThreeSelected | Assets/Test/BoardTest/Editor/BlastRuleTests.cs:44-71 | the vertical rule accepts three red cells of a column |
| BoardScenarios.RowOfThreeNotVertical | Assets/Test/BoardTest/Editor/BlastRuleTests.cs:74-101 | the vertical rule rejects three red cells of a row |
| BoardScenarios.RowOfThreeSelected | Assets/Test/BoardTest/Editor/BlastRuleTests.cs:74-101 | the horizontal rule accepts three red cells of a row |
| BoardScenarios.RowOfThreeFires | Assets/Test/BoardTest/Editor/BlastRuleTests.cs:74-101 | on that board the loop fires the third rule, the horizontal one |
| BoardScenarios.BlastColumnMove | Assets/Test/BoardTest/Editor/BlastRuleTests.cs:12-41 | moving cell 12 up blasts exactly cells 7, 12, 17, 22 (any order) by the vertical rule and keeps the swap |
| BoardScenarios.VerticalBlastMove | Assets/Test/BoardTest/Editor/BlastRuleTests.cs:44-71 | moving cell 12 up blasts by "Vertical Blast Rule" |
| BoardScenarios.HorizontalBlastMove | Assets/Test/BoardTest/Editor/BlastRuleTests.cs:74-101 | moving cell 12 right blasts by "Horizontal Blast Rule" |
| BoardScenarios.NoBlastMove | Assets/Test/BoardTest/Editor/BlastRuleTests.cs:104-119 | on a board of Special 1 items the move returns, blasts nothing and leaves the cells as they were |
| BoardScenarios.SwapBackMove | Assets/Test/BoardTest/Editor/BlastRuleTests.cs:122-145 | the non-blast move returns and cells 0 and 1 hold items 0 and 1 again |
| BoardScenarios.SetUpBoard | Assets/Test/BoardTest/Editor/BlastRuleTests.cs:14-34 | a fresh valid board with the test's grid, the painted items and the standard rules |
| BoardScenarios.BlastColumnReturnsBlastedTiles | Assets/Test/BoardTest/Editor/BlastRuleTests.cs:12-41 | the first test's assertions on the board object: not a return, and the blasted tiles equal the column, ignoring order |
| BoardScenarios.VerticalBlastSetsVerticalDebugName | Assets/Test/BoardTest/Editor/BlastRuleTests.cs:44-71 | the second test's assertions: not a return, named "Vertical Blast Rule" |
| BoardScenarios.HorizontalBlastSetsHorizontalDebugName | Assets/Test/BoardTest/Editor/BlastRuleTests.cs:74-101 | the third test's assertions: not a return, named "Horizontal Blast Rule" |
| BoardScenarios.NoBlastReturnsNoBlastedTiles | Assets/Test/BoardTest/Editor/BlastRuleTests.cs:104-119 | the fourth test's assertions: a return with null blasted tiles |
| BoardScenarios.NoBlastReturnsSwappedTiles | Assets/Test/BoardTest/Editor/BlastRuleTests.cs:122-145 | the fifth test's assertions: a return, with cells 0 and 1 back on items 0 and 1 |

## Left out

- Progress.ProgressCounter.IncreaseProgress: uses the corrected sum `Advance`, not the wrapping sum of ProgressCounter.cs:18. So the class saturates even past `int.MaxValue`, where the C# counter drops to 0 (see "## Findings"). The as-written value is `Progress.AdvanceAsWritten`, and `Progress.AsWrittenReachesMax` states its behaviour.
- LevelParser.RowTokens: a string is a sequence of Unicode scalar values, so `tokens[0].Length` (TextFileLevelDataProvider.cs:162) counts characters, not UTF-16 code units. On a row with a character outside the Basic Multilingual Plane the two lengths differ, so the source and the model can take different branches; the source's compact branch then splits a surrogate pair (line 168). No table key lies outside that plane, so both reject such a row, but one may report `RowLength` where the other reports an unknown token. For text inside the Basic Multilingual Plane the two agree.
- LevelParser.TokenizeRow: inherits the `LevelParser.RowTokens` difference on characters outside the Basic Multilingual Plane.
- LevelParser.ParseLevel: for text inside the Basic Multilingual Plane, returns exactly the source's level or first error, except where a header token depends on what `LevelTokens.ParseInt` leaves out (culture sign strings, trailing NUL characters). Outside that plane, a rejected row may report `RowLength` where the source reports an unknown token, as under `LevelParser.RowTokens`.
- `LoadLevel(int)` and `LoadLevel(string)` (TextFileLevelDataProvider.cs:27-46) are not modelled. They validate the name and load a Unity `TextAsset`, which is I/O; `ParseLevel` takes the text as a parameter.
- Views, input, loaders, registries, the event bus, `Level`, `BoardHistory` and `BlastCondition` are context only. They are outside the engine and the loader.
- TextFileLevelDataProvider.cs:67-70 declares `width`, `height` and `moves` a second time and is not valid C#. The model follows the `int.TryParse` checks of lines 71-84 that the exception messages describe.
- LevelTokens.ParseInt: accepts number white space (U+0009 to U+000D and the space) around an optional `+`/`-` and ASCII digits within `int` range, as `NumberStyles.Integer` does. It leaves out the current culture's sign strings (it uses the invariant `+` and `-`) and the trailing NUL characters .NET's number parser also tolerates.
- LevelParser.EqualsIgnoreCase folds ASCII letters only. `StringComparer.OrdinalIgnoreCase` folds all of Unicode, but no other character upper-cases to one of the keys `.`, `R`, `B`, `G`, `Y`, `O` or `X`.
- LevelParser.ParseBody: a cell count past `int.MaxValue` is a single `SizeOverflow` error. In the source, the wrapped array size would throw `OverflowException` or an index exception, or would reach `LevelData`'s length check.
- Null strings and arrays in the parser are not modelled: the text comes from a loaded asset, and `Tokenize` never returns null. Null arrays are modelled for the `LevelData` constructor only, as `None`.
- TestBoards.BuildItems: the item count `size * 2` is exact. The C# wraps it in `int`, which only matters past 2^30 cells; the scenarios use a 5 by 5 board.
- TestBoards.BuildCells: the index `y * width + x` is exact. The C# wraps it in `int` only when `width * height` itself overflows, and the board constructor already leaves that case out.
- Match.Board.constructor: requires a non-negative cell count. The C# throws for a negative `stackalloc`/array size and wraps `width * height` in `int`; neither is modelled for the board configuration.
- Match.Board.OnBoardUpdate: requires a well-formed board (every link -1 or a cell, every item index an item). The `IndexOutOfRangeException` of a malformed board is not modelled; an out-of-range `cellIndex` is, as `CellOutOfRange`.
- `stackalloc` spans are fresh Dafny arrays. An overflowing span write, or a negative `maxPossibleSelectTile`, is the error `SelectionOverflow` and not a process-level exception.
- The `Direction.GetDirectionIndex()` extension is not part of this model's sources. It is modelled as the bit position of a single flag, which is what `countedTiles` indexing at Board.cs:194 and BlastRule.cs:48-53 needs.
- `BlastRule.MinCount` (an unsafe span over the fixed buffer) is not modelled. `minCount` is never written, so it is modelled as zeros.
- `name` (a `FixedString128Bytes`) is a plain string. `order` and `itemType` of a rule, and `health` of an item, are carried but never read, as in the source.
- `ProgressCounter` is a C# struct. The model makes it a class, so struct copy semantics (a copy's increase not affecting the original) are not captured.
- `BoardConfig`'s private `excludeList` is never read by the engine and is left out.

## Findings

| source | as written | input that shows it | evidently intended | confidence | as-written member | corrected member |
|---|---|---|---|---|---|---|
| Assets/Module/Game/Core/Level/LevelData.cs:38-47 | `expectedLength = width * height` is unchecked `int` arithmetic, so the length checks compare against the product modulo 2^32 | width = height = 65536 with empty item and exclusion arrays: the product wraps to 0, the level is accepted, and `GetItem(0, 0)` throws | the arrays have exactly `width * height` entries, as the exception message says | not executed | Levels.NewLevelDataAsWritten, Levels.WrappedSizeAccepted | Levels.NewLevelData, Levels.NewLevelDataErrors |
| Assets/Module/Util/ProgressCounter.cs:18 | `value + progressAmount` is unchecked `int` arithmetic before `math.clamp`, so a large increase wraps negative and clamps to 0 | value 1, maxValue 10, `IncreaseProgress(int.MaxValue)` leaves the counter at 0 instead of 10 | the counter saturates at `maxValue` for any non-negative increase | not executed | Progress.AdvanceAsWritten, Progress.OverflowEmptiesCounter | Progress.Advance, Progress.AdvanceExact |
