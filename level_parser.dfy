/** `TextFileLevelDataProvider.ParseLevel`
    (Assets/Module/Game/Core/Level/TextFileLevelDataProvider.cs:10-25, 48-126,
    157-175): a level file is a header line `<width> <height> <moves>`
    followed by `height` rows of `width` cell tokens, either separated or
    written compactly as one token of `width` characters. */
module LevelParser {
  import opened Wrappers
  import opened Int32s
  import ItemTypes
  import opened LevelTokens
  import Levels

  // ---------------------------------------------------------------------
  // Item tokens

  /** Upper case of an ASCII letter. `StringComparer.OrdinalIgnoreCase`
      compares invariant upper cases; for the tokens below (`.`, `R`, `B`,
      `G`, `Y`, `O`, `X`) only the ASCII lower-case letters fold onto them. */
  function UpperAscii(c: char): char {
    if 'a' <= c <= 'z' then (c as int - 32) as char else c
  }

  /** `StringComparer.OrdinalIgnoreCase` equality: equal lengths, and equal
      characters after upper-casing; every string equals itself. */
  predicate EqualsIgnoreCase(a: string, b: string)
    ensures EqualsIgnoreCase(a, b) ==> |a| == |b|
    ensures a == b ==> EqualsIgnoreCase(a, b)
  {
    |a| == |b| && (a == [] || (UpperAscii(a[0]) == UpperAscii(b[0]) && EqualsIgnoreCase(a[1..], b[1..])))
  }

  /** `ItemMappings`, in its declaration order. */
  const ItemMappings: seq<(string, ItemTypes.ItemType)> :=
    [(".", ItemTypes.None), ("R", ItemTypes.BlastRed), ("B", ItemTypes.BlastBlue),
     ("G", ItemTypes.BlastGreen), ("Y", ItemTypes.BlastYellow), ("O", ItemTypes.Obstacle1)]

  /** `SupportsCompactFormat`: every key is a single character. */
  predicate SupportsCompactFormat() {
    forall k :: 0 <= k < |ItemMappings| ==> |ItemMappings[k].0| == 1
  }

  /** The value of the first key from entry `k` on that equals `token`
      ignoring case, as the dictionary's lookup would find it. */
  function LookupFrom(token: string, k: nat): Option<ItemTypes.ItemType>
    decreases |ItemMappings| - k
  {
    if k >= |ItemMappings| then None
    else if EqualsIgnoreCase(token, ItemMappings[k].0) then Some(ItemMappings[k].1)
    else LookupFrom(token, k + 1)
  }

  /** `ItemMappings.TryGetValue`, ignoring case: the keys are single
      characters, so only a one-character token can hit (`LookupItemTable`
      shows this agrees with a search of the table). */
  function LookupItem(token: string): (r: Option<ItemTypes.ItemType>)
    ensures r.Some? ==> |token| == 1
    ensures r.Some? ==> r.value != ItemTypes.Blast && !ItemTypes.HasFlag(r.value, ItemTypes.Special)
  {
    if |token| == 1 then MappedChar(token[0]) else None
  }

  /** The table read one character at a time. */
  function MappedChar(c: char): Option<ItemTypes.ItemType> {
    match UpperAscii(c)
    case '.' => Some(ItemTypes.None)
    case 'R' => Some(ItemTypes.BlastRed)
    case 'B' => Some(ItemTypes.BlastBlue)
    case 'G' => Some(ItemTypes.BlastGreen)
    case 'Y' => Some(ItemTypes.BlastYellow)
    case 'O' => Some(ItemTypes.Obstacle1)
    case _ => None
  }

  /** The lookup is the search of `ItemMappings` for a key equal to the token
      ignoring case, and the table supports the compact format. */
  lemma LookupItemTable(token: string)
    ensures LookupItem(token) == LookupFrom(token, 0)
    ensures SupportsCompactFormat()
  {
    if |token| == 1 {
      var u := UpperAscii(token[0]);
      assert EqualsIgnoreCase(token, ".") <==> u == '.';
      assert EqualsIgnoreCase(token, "R") <==> u == 'R';
      assert EqualsIgnoreCase(token, "B") <==> u == 'B';
      assert EqualsIgnoreCase(token, "G") <==> u == 'G';
      assert EqualsIgnoreCase(token, "Y") <==> u == 'Y';
      assert EqualsIgnoreCase(token, "O") <==> u == 'O';
    }
  }

  /** The content of one cell. */
  datatype Cell = Cell(item: ItemTypes.ItemType, excluded: bool)

  /** Why parsing fails: one case per `InvalidDataException` of the parser
      in source order, then `SizeOverflow` for a cell count past `int`, then
      the constructor's own errors. */
  datatype ParseError =
    | EmptyText
    | NoData
    | ShortHeader
    | BadWidth(token: string)
    | BadHeight(token: string)
    | BadMoves(token: string)
    | NonPositiveSize
    | MissingRows
    | SizeOverflow
    | RowLength(row: int)
    | UnknownToken(token: string)
    | Invalid(error: Levels.LevelError)

  /** One cell token: `X` in any case is an excluded empty cell, a mapped
      token its item, anything else an error. */
  function ParseCell(token: string): (r: Result<Cell, ParseError>)
    ensures r.Success? && r.value.excluded ==> r.value.item == ItemTypes.None && EqualsIgnoreCase(token, "X")
    ensures r.Success? && !r.value.excluded ==> LookupItem(token) == Some(r.value.item)
    ensures r.Failure? ==> r.error == UnknownToken(token) && LookupItem(token).None?
  {
    if EqualsIgnoreCase(token, "X") then Success(Cell(ItemTypes.None, true))
    else match LookupItem(token)
      case None => Failure(UnknownToken(token))
      case Some(item) => Success(Cell(item, false))
  }

  // ---------------------------------------------------------------------
  // Rows

  /** The tokens of a row: a single token exactly `width` characters long is
      read one character per cell. */
  function RowTokens(line: string, width: int): (tokens: seq<string>)
    ensures forall i :: 0 <= i < |tokens| ==> tokens[i] != []
    ensures |Tokenize(line)| == 1 && |Tokenize(line)[0]| == width ==> |tokens| == width
  {
    var t := Tokenize(line);
    if |t| == 1 && |t[0]| == width && SupportsCompactFormat() then
      seq(|t[0]|, i requires 0 <= i < |t[0]| => [t[0][i]])
    else
      assert forall i :: 0 <= i < |t| ==> t[i] in t;
      t
  }

  /** A compact row has `width` one-character tokens that spell out the
      line's only token; any other line keeps its plain tokens. */
  lemma RowTokensCompact(line: string, width: int)
    ensures var t := Tokenize(line);
      if |t| == 1 && |t[0]| == width then
        && |RowTokens(line, width)| == width
        && (forall i :: 0 <= i < width ==> RowTokens(line, width)[i] == [t[0][i]])
        && Concat(RowTokens(line, width)) == t[0]
      else RowTokens(line, width) == t
  {
    LookupItemTable("");
    var t := Tokenize(line);
    if |t| == 1 && |t[0]| == width {
      ConcatChars(t[0]);
    }
  }

  lemma {:induction false} ConcatChars(s: string)
    ensures Concat(seq(|s|, i requires 0 <= i < |s| => [s[i]])) == s
    decreases |s|
  {
    if s != [] {
      var parts := seq(|s|, i requires 0 <= i < |s| => [s[i]]);
      assert parts[1..] == seq(|s[1..]|, i requires 0 <= i < |s[1..]| => [s[1..][i]]);
      ConcatChars(s[1..]);
    }
  }

  /** A compact row reads the same as its characters written apart: both
      formats give the same cell tokens. */
  lemma CompactRowSpaced(line: string, width: int)
    requires |Tokenize(line)| == 1 && |Tokenize(line)[0]| == width
    ensures RowTokens(JoinSpaced(RowTokens(line, width)), width) == RowTokens(line, width)
  {
    RowTokensCompact(line, width);
    var tokens := RowTokens(line, width);
    var t := Tokenize(line)[0];
    assert IsToken(t) by { assert t in Tokenize(line); }
    forall k | 0 <= k < |tokens|
      ensures IsToken(tokens[k])
    {
      assert tokens[k] == [t[k]] && !IsSeparator(t[k]);
    }
    TokenizeRoundTrip(tokens);
    RowTokensCompact(JoinSpaced(tokens), width);
    if width == 1 {
      assert tokens == [t] && tokens[0] == [tokens[0][0]];
    }
  }

  /** `TokenizeRow`: fills a fresh array with the compact row's characters,
      or returns the plain tokens. */
  method TokenizeRow(line: string, width: Int32) returns (tokens: seq<string>)
    ensures tokens == RowTokens(line, width)
  {
    tokens := Tokenize(line);
    if |tokens| == 1 && |tokens[0]| == width && SupportsCompactFormat() {
      var compact := tokens[0];
      var expanded := new string[width];
      for index := 0 to width
        invariant forall k :: 0 <= k < index ==> expanded[k] == [compact[k]]
      {
        expanded[index] := [compact[index]];
      }
      return expanded[..];
    }
  }

  /** The first failing token of a row from `column` on. */
  function FirstBadToken(tokens: seq<string>, column: nat): Option<ParseError>
    decreases |tokens| - column
  {
    if column >= |tokens| then None
    else if ParseCell(tokens[column]).Failure? then Some(ParseCell(tokens[column]).error)
    else FirstBadToken(tokens, column + 1)
  }

  /** What is wrong with row `row`, if anything: its length first, then its
      tokens from left to right. */
  function RowError(row: int, tokens: seq<string>, width: int): Option<ParseError> {
    if |tokens| != width then Some(RowLength(row)) else FirstBadToken(tokens, 0)
  }

  /** The tokens of the `height` rows under the header; row `r` is content
      line `r + 1`. */
  function RowsOf(lines: seq<string>, width: int, height: nat): (rows: seq<seq<string>>)
    requires height < |lines|
    ensures |rows| == height
  {
    seq(height, r requires 0 <= r < height => RowTokens(lines[r + 1], width))
  }

  /** Row `row` is the tokens of content line `row + 1`. */
  lemma RowOfLine(lines: seq<string>, width: int, height: nat, row: nat)
    requires height < |lines| && row < height
    ensures RowsOf(lines, width, height)[row] == RowTokens(lines[row + 1], width)
  {
  }

  /** The first row from `row` on that fails. */
  function FirstBadRow(rows: seq<seq<string>>, width: int, row: nat): Option<ParseError>
    decreases |rows| - row
  {
    if row >= |rows| then None
    else
      var e := RowError(row, rows[row], width);
      if e.Some? then e else FirstBadRow(rows, width, row + 1)
  }

  /** The cell a token stands for (nothing, for a token that fails, since
      its row then fails). */
  function CellOf(token: string): Cell {
    if ParseCell(token).Success? then ParseCell(token).value else Cell(ItemTypes.None, false)
  }

  /** The cells of a row, left to right. */
  function RowCells(tokens: seq<string>): (cells: seq<Cell>)
    ensures |cells| == |tokens|
  {
    seq(|tokens|, c requires 0 <= c < |tokens| => CellOf(tokens[c]))
  }

  /** The cells of the first `n` rows, one row after the other. */
  function GridCells(rows: seq<seq<string>>, n: nat): seq<Cell>
    requires n <= |rows|
  {
    if n == 0 then [] else GridCells(rows, n - 1) + RowCells(rows[n - 1])
  }

  function ItemsOf(cells: seq<Cell>): (items: seq<ItemTypes.ItemType>)
    ensures |items| == |cells|
  {
    seq(|cells|, i requires 0 <= i < |cells| => cells[i].item)
  }

  function ExcludedOf(cells: seq<Cell>): (excluded: seq<bool>)
    ensures |excluded| == |cells|
  {
    seq(|cells|, i requires 0 <= i < |cells| => cells[i].excluded)
  }

  lemma ProjectAppend(a: seq<Cell>, b: seq<Cell>)
    ensures ItemsOf(a + b) == ItemsOf(a) + ItemsOf(b)
    ensures ExcludedOf(a + b) == ExcludedOf(a) + ExcludedOf(b)
  {
    assert ItemsOf(a + b) == ItemsOf(a) + ItemsOf(b);
    assert ExcludedOf(a + b) == ExcludedOf(a) + ExcludedOf(b);
  }

  // ---------------------------------------------------------------------
  // The whole file

  /** The rows of a level whose header has been read. */
  function ParseBody(lines: seq<string>, width: Int32, height: Int32, moves: Int32)
    : (r: Result<Levels.LevelData, ParseError>)
    requires width > 0 && height > 0 && height < |lines|
    ensures r.Success? ==> Levels.Valid(r.value) && |r.value.items| <= MaxInt32
    ensures r.Success? ==> r.value.width == width && r.value.height == height && r.value.moves == moves
  {
    var rows := RowsOf(lines, width, height);
    if width * height > MaxInt32 then Failure(SizeOverflow)
    else match FirstBadRow(rows, width, 0)
      case Some(e) => Failure(e)
      case None =>
        match Levels.NewLevelData(width, height, moves,
                                  Some(ItemsOf(GridCells(rows, height))),
                                  Some(ExcludedOf(GridCells(rows, height))))
        case Failure(e) => Failure(Invalid(e))
        case Success(level) => Success(level)
  }

  /** The header line's tokens: width, height and moves, each an `int`. */
  function ReadHeader(header: seq<string>): Result<(Int32, Int32, Int32), ParseError> {
    if |header| < 3 then Failure(ShortHeader)
    else match (ParseInt(header[0]), ParseInt(header[1]), ParseInt(header[2]))
      case (None, _, _) => Failure(BadWidth(header[0]))
      case (Some(_), None, _) => Failure(BadHeight(header[1]))
      case (Some(_), Some(_), None) => Failure(BadMoves(header[2]))
      case (Some(width), Some(height), Some(moves)) => Success((width, height, moves))
  }

  /** The content lines of a level file. */
  function ParseContent(lines: seq<string>): Result<Levels.LevelData, ParseError> {
    if |lines| == 0 then Failure(NoData)
    else match ReadHeader(Tokenize(lines[0]))
      case Failure(e) => Failure(e)
      case Success((width, height, moves)) =>
        if width <= 0 || height <= 0 then Failure(NonPositiveSize)
        else if |lines| - 1 < height then Failure(MissingRows)
        else ParseBody(lines, width, height, moves)
  }

  /** What `ParseLevel` returns or throws for a file's text. */
  function ParseLevelSpec(rawText: string): Result<Levels.LevelData, ParseError> {
    if IsBlank(rawText) then Failure(EmptyText) else ParseContent(ContentLines(rawText))
  }

  /** One pass of the row loop of `ParseLevel` over the tokens of a row of
      the right length, writing the cells from index `start` on: stops at
      the first bad token, and otherwise stores every cell the row holds. */
  method FillRow(rowTokens: seq<string>, start: nat,
                 items: array<ItemTypes.ItemType>, excluded: array<bool>)
    returns (error: Option<ParseError>)
    requires start + |rowTokens| <= items.Length == excluded.Length
    requires items as object != excluded as object
    requires forall i :: start <= i < excluded.Length ==> !excluded[i]
    modifies items, excluded
    ensures error == FirstBadToken(rowTokens, 0)
    ensures items[..start] == old(items[..start]) && excluded[..start] == old(excluded[..start])
    ensures error.None? ==>
      && items[start..start + |rowTokens|] == ItemsOf(RowCells(rowTokens))
      && excluded[start..start + |rowTokens|] == ExcludedOf(RowCells(rowTokens))
    ensures forall i :: start + |rowTokens| <= i < excluded.Length ==> !excluded[i]
  {
    ghost var cells: seq<Cell> := [];
    for column := 0 to |rowTokens|
      invariant FirstBadToken(rowTokens, column) == FirstBadToken(rowTokens, 0)
      invariant forall i :: 0 <= i < start ==> items[i] == old(items[i]) && excluded[i] == old(excluded[i])
      invariant |cells| == column
      invariant Written(rowTokens, start, cells, items[..], excluded[..])
    {
      error := StoreToken(rowTokens, start, column, cells, items, excluded);
      if error.Some? {
        return;
      }
      cells := cells + [ParseCell(rowTokens[column]).value];
    }
    RowDone(rowTokens, start, cells, items[..], excluded[..]);
    return None;
  }

  /** One pass of the column loop: token `column` is stored at `start + column`
      as an excluded empty cell, stored as its item, or reported unknown. */
  method StoreToken(rowTokens: seq<string>, start: nat, column: nat, ghost cells: seq<Cell>,
                    items: array<ItemTypes.ItemType>, excluded: array<bool>)
    returns (error: Option<ParseError>)
    requires items as object != excluded as object && column == |cells| < |rowTokens|
    requires Written(rowTokens, start, cells, items[..], excluded[..])
    modifies items, excluded
    ensures var r := ParseCell(rowTokens[|cells|]);
      error == (if r.Failure? then Some(r.error) else None) &&
      (r.Success? ==> Written(rowTokens, start, cells + [r.value], items[..], excluded[..]))
    ensures forall i :: 0 <= i < items.Length && i != start + |cells| ==>
      items[i] == old(items[i]) && excluded[i] == old(excluded[i])
  {
    var token := rowTokens[column];
    var index := start + column;
    ghost var before, beforeExcluded := items[..], excluded[..];
    if EqualsIgnoreCase(token, "X") {
      excluded[index] := true;
      items[index] := ItemTypes.None;
      WriteCell(rowTokens, start, cells, before, beforeExcluded, Cell(ItemTypes.None, true));
      assert items[..] == before[index := ItemTypes.None];
      assert excluded[..] == beforeExcluded[index := true];
      return None;
    }
    var item := LookupItem(token);
    if item.None? {
      return Some(UnknownToken(token));
    }
    items[index] := item.value;
    WriteCell(rowTokens, start, cells, before, beforeExcluded, Cell(item.value, false));
    assert items[..] == before[index := item.value];
    return None;
  }

  /** The first `|cells|` tokens of a row parsed to `cells`, which the
      arrays hold from `start` on; no cell after them is excluded yet. */
  predicate Written(tokens: seq<string>, start: nat, cells: seq<Cell>,
                    items: seq<ItemTypes.ItemType>, excluded: seq<bool>) {
    && |cells| <= |tokens| && start + |tokens| <= |items| == |excluded|
    && (forall c :: 0 <= c < |cells| ==> ParseCell(tokens[c]) == Success(cells[c]))
    && (forall c :: 0 <= c < |cells| ==>
          items[start + c] == cells[c].item && excluded[start + c] == cells[c].excluded)
    && forall i :: start + |cells| <= i < |excluded| ==> !excluded[i]
  }

  /** Writing the next token's cell keeps `Written`. */
  lemma WriteCell(tokens: seq<string>, start: nat, cells: seq<Cell>,
                  items: seq<ItemTypes.ItemType>, excluded: seq<bool>, cell: Cell)
    requires Written(tokens, start, cells, items, excluded) && |cells| < |tokens|
    requires ParseCell(tokens[|cells|]) == Success(cell)
    ensures var i := start + |cells|;
      Written(tokens, start, cells + [cell], items[i := cell.item],
              if cell.excluded then excluded[i := true] else excluded)
  {
    CellsGrow(tokens, cells, cell);
  }

  /** One more token of a row read into `cells`. */
  lemma CellsGrow(tokens: seq<string>, cells: seq<Cell>, cell: Cell)
    requires |cells| < |tokens|
    requires forall c :: 0 <= c < |cells| ==> ParseCell(tokens[c]) == Success(cells[c])
    requires ParseCell(tokens[|cells|]) == Success(cell)
    ensures forall c :: 0 <= c <= |cells| ==> ParseCell(tokens[c]) == Success((cells + [cell])[c])
    ensures FirstBadToken(tokens, |cells| + 1) == FirstBadToken(tokens, |cells|)
  {
  }

  /** Arrays that hold, from `start` on, the cell of every token of a row
      hold the row's cells there. */
  lemma RowDone(rowTokens: seq<string>, start: nat, cells: seq<Cell>,
                items: seq<ItemTypes.ItemType>, excluded: seq<bool>)
    requires start + |rowTokens| <= |items| == |excluded| && |cells| == |rowTokens|
    requires forall c :: 0 <= c < |rowTokens| ==> ParseCell(rowTokens[c]) == Success(cells[c])
    requires forall c :: 0 <= c < |rowTokens| ==>
      items[start + c] == cells[c].item && excluded[start + c] == cells[c].excluded
    ensures items[start..start + |rowTokens|] == ItemsOf(RowCells(rowTokens))
    ensures excluded[start..start + |rowTokens|] == ExcludedOf(RowCells(rowTokens))
  {
    forall c | 0 <= c < |rowTokens|
      ensures CellOf(rowTokens[c]) == Cell(items[start + c], excluded[start + c])
    {
      assert CellOf(rowTokens[c]) == cells[c];
    }
  }

  /** `ParseLevel`: checks the text, the content lines and the header, then
      builds the level from the rows. */
  method ParseLevel(rawText: string) returns (r: Result<Levels.LevelData, ParseError>)
    ensures r == ParseLevelSpec(rawText)
  {
    if IsBlank(rawText) {
      return Failure(EmptyText);
    }
    var contentLines := GetContentLines(rawText);
    if |contentLines| == 0 {
      return Failure(NoData);
    }
    var headerTokens := Tokenize(contentLines[0]);
    if |headerTokens| < 3 {
      return Failure(ShortHeader);
    }
    var w := ParseInt(headerTokens[0]);
    if w.None? {
      return Failure(BadWidth(headerTokens[0]));
    }
    var h := ParseInt(headerTokens[1]);
    if h.None? {
      return Failure(BadHeight(headerTokens[1]));
    }
    var m := ParseInt(headerTokens[2]);
    if m.None? {
      return Failure(BadMoves(headerTokens[2]));
    }
    var width, height, moves := w.value, h.value, m.value;
    if width <= 0 || height <= 0 {
      return Failure(NonPositiveSize);
    }
    if |contentLines| - 1 < height {
      return Failure(MissingRows);
    }
    r := BuildLevel(contentLines, width, height, moves);
  }

  /** The second half of `ParseLevel`, once the header is read and there are
      enough lines: allocates the two arrays, fills them row by row, and
      hands them to the `LevelData` constructor. */
  method BuildLevel(contentLines: seq<string>, width: Int32, height: Int32, moves: Int32)
    returns (r: Result<Levels.LevelData, ParseError>)
    requires width > 0 && height > 0 && height < |contentLines|
    ensures r == ParseBody(contentLines, width, height, moves)
  {
    if width * height > MaxInt32 {
      return Failure(SizeOverflow);
    }
    var items := new ItemTypes.ItemType[width * height](_ => ItemTypes.None);
    var excluded := new bool[width * height](_ => false);
    var error := FillRows(contentLines, RowsOf(contentLines, width, height), width, height, items, excluded);
    if error.Some? {
      return Failure(error.value);
    }
    RowsPass(contentLines, width, height, moves);
    var level := Levels.NewLevelData(width, height, moves, Some(items[..]), Some(excluded[..]));
    if level.Failure? {
      return Failure(Invalid(level.error));
    }
    return Success(level.value);
  }

  /** The row loop of `ParseLevel`: tokenizes each row, checks its length
      and fills its cells, stopping at the first row that fails. */
  method FillRows(contentLines: seq<string>, ghost rows: seq<seq<string>>, width: Int32, height: Int32,
                  items: array<ItemTypes.ItemType>, excluded: array<bool>)
    returns (error: Option<ParseError>)
    requires width > 0 && height > 0 && height < |contentLines| && |rows| == height
    requires forall r :: 0 <= r < height ==> rows[r] == RowTokens(contentLines[r + 1], width)
    requires items.Length == excluded.Length == width * height
    requires items as object != excluded as object
    requires forall i :: 0 <= i < excluded.Length ==> !excluded[i]
    modifies items, excluded
    ensures error == FirstBadRow(rows, width, 0)
    ensures error.None? ==>
      && items[..] == ItemsOf(GridCells(rows, height))
      && excluded[..] == ExcludedOf(GridCells(rows, height))
  {
    for row := 0 to height
      invariant RowsLoop(rows, width, row, items[..], excluded[..])
    {
      error := ReadRow(contentLines[row + 1], rows, row, width, items, excluded);
      if error.Some? {
        return error;
      }
    }
    RowsLoopDone(rows, width, items[..], excluded[..]);
    return None;
  }

  /** The arrays hold the first `row` rows up to `start`, and no cell from
      `start` on is excluded yet. */
  predicate Filled(rows: seq<seq<string>>, row: nat, start: nat,
                   items: seq<ItemTypes.ItemType>, excluded: seq<bool>) {
    && row <= |rows| && start <= |items| == |excluded|
    && items[..start] == ItemsOf(GridCells(rows, row))
    && excluded[..start] == ExcludedOf(GridCells(rows, row))
    && forall i :: start <= i < |excluded| ==> !excluded[i]
  }

  /** The state of the row loop before row `row`: the rows before it pass,
      and the arrays hold them. */
  predicate RowsLoop(rows: seq<seq<string>>, width: nat, row: nat,
                     items: seq<ItemTypes.ItemType>, excluded: seq<bool>) {
    && |items| == width * |rows|
    && FirstBadRow(rows, width, row) == FirstBadRow(rows, width, 0)
    && Filled(rows, row, width * row, items, excluded)
  }

  /** After the last row the arrays hold the whole grid. */
  lemma RowsLoopDone(rows: seq<seq<string>>, width: nat, items: seq<ItemTypes.ItemType>, excluded: seq<bool>)
    requires RowsLoop(rows, width, |rows|, items, excluded)
    ensures items == ItemsOf(GridCells(rows, |rows|))
    ensures excluded == ExcludedOf(GridCells(rows, |rows|))
  {
    GridDone(rows, items, excluded);
  }

  /** One pass of the row loop of `ParseLevel`: reads row `row` from line
      `line` and either reports the first failing row or moves the loop on. */
  method ReadRow(line: string, ghost rows: seq<seq<string>>, row: nat, width: Int32,
                 items: array<ItemTypes.ItemType>, excluded: array<bool>)
    returns (error: Option<ParseError>)
    requires row < |rows| && rows[row] == RowTokens(line, width)
    requires 0 < width && items.Length == width * |rows|
    requires items as object != excluded as object
    requires RowsLoop(rows, width, row, items[..], excluded[..])
    modifies items, excluded
    ensures error.Some? ==> error == FirstBadRow(rows, width, 0)
    ensures error.None? ==> RowsLoop(rows, width, row + 1, items[..], excluded[..])
  {
    var start := row * width;
    RowFits(row, width, |rows|, start);
    error := ReadRowCells(line, rows, row, width, start, items, excluded);
    RowStep(rows, width, row, error);
  }

  /** Tokenizes line `line`, which holds row `row` of `rows`, checks its
      length and fills its cells from index `start` on, after the `row` rows
      before it. */
  method ReadRowCells(line: string, ghost rows: seq<seq<string>>, row: nat, width: Int32, start: nat,
                      items: array<ItemTypes.ItemType>, excluded: array<bool>)
    returns (error: Option<ParseError>)
    requires row < |rows| && rows[row] == RowTokens(line, width)
    requires 0 < width && start + width <= items.Length
    requires items as object != excluded as object
    requires Filled(rows, row, start, items[..], excluded[..])
    modifies items, excluded
    ensures error == RowError(row, rows[row], width)
    ensures error.None? ==> Filled(rows, row + 1, start + width, items[..], excluded[..])
  {
    var rowTokens := TokenizeRow(line, width);
    if |rowTokens| != width {
      return Some(RowLength(row));
    }
    error := FillRow(rowTokens, start, items, excluded);
    if error.None? {
      GridGrows(rows, width, row, start, items[..], excluded[..]);
    }
  }

  /** The first failing row is row `row` if that one fails, and otherwise
      the first failing one after it. */
  lemma RowStep(rows: seq<seq<string>>, width: int, row: nat, error: Option<ParseError>)
    requires row < |rows| && error == RowError(row, rows[row], width)
    requires FirstBadRow(rows, width, row) == FirstBadRow(rows, width, 0)
    ensures error.Some? ==> error == FirstBadRow(rows, width, 0)
    ensures error.None? ==> FirstBadRow(rows, width, row + 1) == FirstBadRow(rows, width, 0)
  {
  }

  /** Arrays that hold the first `row` rows and then row `row` hold the
      first `row + 1` rows. */
  lemma GridGrows(rows: seq<seq<string>>, width: int, row: nat, start: nat,
                  items: seq<ItemTypes.ItemType>, excluded: seq<bool>)
    requires row < |rows| && |rows[row]| == width && start + width <= |items| == |excluded|
    requires items[..start] == ItemsOf(GridCells(rows, row))
    requires excluded[..start] == ExcludedOf(GridCells(rows, row))
    requires items[start..start + width] == ItemsOf(RowCells(rows[row]))
    requires excluded[start..start + width] == ExcludedOf(RowCells(rows[row]))
    ensures items[..start + width] == ItemsOf(GridCells(rows, row + 1))
    ensures excluded[..start + width] == ExcludedOf(GridCells(rows, row + 1))
  {
    ProjectAppend(GridCells(rows, row), RowCells(rows[row]));
    assert items[..start + width] == items[..start] + items[start..start + width];
    assert excluded[..start + width] == excluded[..start] + excluded[start..start + width];
  }

  /** Arrays whose every entry is filled hold the whole grid. */
  lemma GridDone(rows: seq<seq<string>>, items: seq<ItemTypes.ItemType>, excluded: seq<bool>)
    requires Filled(rows, |rows|, |items|, items, excluded)
    ensures items == ItemsOf(GridCells(rows, |rows|))
    ensures excluded == ExcludedOf(GridCells(rows, |rows|))
  {
    assert items == items[..|items|] && excluded == excluded[..|items|];
  }

  /** Row `row` of the rectangle ends inside it, and the next one starts
      where it ends. */
  lemma RowFits(row: int, width: int, height: int, start: int)
    requires 0 <= row < height && width > 0 && start == row * width
    ensures start == width * row && start + width <= width * height
    ensures start + width == width * (row + 1)
  {
    Levels.RowMajorInRange(width - 1, row, width, height);
  }

  /** With every row passing, the result is the constructor's. */
  lemma RowsPass(lines: seq<string>, width: Int32, height: Int32, moves: Int32)
    requires width > 0 && height > 0 && height < |lines| && width * height <= MaxInt32
    requires FirstBadRow(RowsOf(lines, width, height), width, 0) == None
    ensures ParseBody(lines, width, height, moves)
      == match Levels.NewLevelData(width, height, moves,
                                   Some(ItemsOf(GridCells(RowsOf(lines, width, height), height))),
                                   Some(ExcludedOf(GridCells(RowsOf(lines, width, height), height))))
         case Failure(e) => Failure(Invalid(e))
         case Success(level) => Success(level)
  {
  }

  // ---------------------------------------------------------------------
  // Properties of a parsed level

  /** A row with no bad token from `column` on parses every token from there. */
  lemma {:induction false} NoBadToken(tokens: seq<string>, column: nat)
    requires FirstBadToken(tokens, column) == None
    ensures forall c :: column <= c < |tokens| ==> ParseCell(tokens[c]).Success?
    decreases |tokens| - column
  {
    if column < |tokens| {
      NoBadToken(tokens, column + 1);
    }
  }

  /** With no bad row from `row` on, each of those rows has `width` tokens
      and every token parses. */
  lemma {:induction false} NoBadRow(rows: seq<seq<string>>, width: int, row: nat)
    requires FirstBadRow(rows, width, row) == None
    ensures forall r :: row <= r < |rows| ==>
      |rows[r]| == width && forall c :: 0 <= c < width ==> ParseCell(rows[r][c]).Success?
    decreases |rows| - row
  {
    if row < |rows| {
      NoBadToken(rows[row], 0);
      NoBadRow(rows, width, row + 1);
    }
  }

  /** The grid of `n` rows of `width` tokens has `width * n` cells. */
  lemma {:induction false} GridCellsLength(rows: seq<seq<string>>, width: nat, n: nat)
    requires n <= |rows|
    requires forall r :: 0 <= r < n ==> |rows[r]| == width
    ensures |GridCells(rows, n)| == width * n
  {
    if n > 0 {
      GridCellsLength(rows, width, n - 1);
      assert width * n == width * (n - 1) + width;
    }
  }

  /** Cell `width * r + c` of that grid is the cell of token `c` of row `r`. */
  lemma {:induction false} GridCellAt(rows: seq<seq<string>>, width: nat, n: nat, r: nat, c: nat)
    requires n <= |rows|
    requires forall r :: 0 <= r < n ==> |rows[r]| == width
    requires r < n && c < width
    ensures 0 <= width * r + c < width * n == |GridCells(rows, n)|
    ensures GridCells(rows, n)[width * r + c] == CellOf(rows[r][c])
  {
    Levels.MulMono(0, r, width);
    GridCellsLength(rows, width, n);
    GridCellsLength(rows, width, n - 1);
    assert width * n == width * (n - 1) + width;
    if r < n - 1 {
      GridCellAt(rows, width, n - 1, r, c);
    }
  }

  /** What a parsed level's header and body are. */
  lemma ParsedHeader(lines: seq<string>, level: Levels.LevelData)
    requires ParseContent(lines) == Success(level)
    ensures |lines| > 0 && |Tokenize(lines[0])| >= 3
    ensures ParseInt(Tokenize(lines[0])[0]) == Some(level.width)
    ensures ParseInt(Tokenize(lines[0])[1]) == Some(level.height)
    ensures ParseInt(Tokenize(lines[0])[2]) == Some(level.moves)
    ensures 0 < level.height < |lines| && level.width > 0
    ensures ParseBody(lines, level.width, level.height, level.moves) == Success(level)
  {
  }

  /** A body that parses has no bad row, fits in an `int` and is the grid. */
  lemma ParsedBody(lines: seq<string>, width: Int32, height: Int32, moves: Int32, level: Levels.LevelData)
    requires width > 0 && height > 0 && height < |lines|
    requires ParseBody(lines, width, height, moves) == Success(level)
    ensures Levels.Valid(level) && width * height <= MaxInt32
    ensures level.width == width && level.height == height && level.moves == moves
    ensures FirstBadRow(RowsOf(lines, width, height), width, 0) == None
    ensures level.items == ItemsOf(GridCells(RowsOf(lines, width, height), height))
    ensures level.excludedCells == ExcludedOf(GridCells(RowsOf(lines, width, height), height))
  {
  }

  /** A level that parses is valid and its header values are the first
      three header tokens. */
  lemma ParseContentSuccess(lines: seq<string>, level: Levels.LevelData)
    requires ParseContent(lines) == Success(level)
    ensures Levels.Valid(level) && |level.items| <= MaxInt32 && level.height < |lines|
    ensures |Tokenize(lines[0])| >= 3
    ensures ParseInt(Tokenize(lines[0])[0]) == Some(level.width)
    ensures ParseInt(Tokenize(lines[0])[1]) == Some(level.height)
    ensures ParseInt(Tokenize(lines[0])[2]) == Some(level.moves)
  {
    ParsedHeader(lines, level);
    ParsedBody(lines, level.width, level.height, level.moves, level);
  }

  /** Cell `(x, y)` of `level` exists and holds what `token` stands for. */
  predicate CellHolds(level: Levels.LevelData, x: int, y: int, token: string) {
    var i := level.width * y + x;
    && 0 <= i < |level.items| == |level.excludedCells|
    && ParseCell(token) == Success(Cell(level.items[i], level.excludedCells[i]))
  }

  /** Cell `(x, y)` of a parsed body holds the cell of token `x` of row `y`. */
  lemma BodyCell(lines: seq<string>, width: Int32, height: Int32, moves: Int32,
                 level: Levels.LevelData, x: int, y: int)
    requires width > 0 && height > 0 && height < |lines|
    requires ParseBody(lines, width, height, moves) == Success(level)
    requires 0 <= x < width && 0 <= y < height
    ensures |RowTokens(lines[y + 1], width)| == width
    ensures CellHolds(level, x, y, RowTokens(lines[y + 1], width)[x])
  {
    ParsedBody(lines, width, height, moves, level);
    var rows := RowsOf(lines, width, height);
    NoBadRow(rows, width, 0);
    GridCellAt(rows, width, height, y, x);
    RowOfLine(lines, width, height, y);
    var token := rows[y][x];
    assert ParseCell(token).Success?;
  }

  /** Cell `(x, y)` of a parsed level holds what token `x` of content line
      `y + 1` stands for: an `X` is an excluded cell without an item, any
      other token the item the table maps it to. */
  lemma ParsedCell(lines: seq<string>, level: Levels.LevelData, x: int, y: int)
    requires ParseContent(lines) == Success(level)
    requires 0 <= x < level.width && 0 <= y < level.height
    ensures y + 1 < |lines| && |RowTokens(lines[y + 1], level.width)| == level.width
    ensures CellHolds(level, x, y, RowTokens(lines[y + 1], level.width)[x])
  {
    ParsedHeader(lines, level);
    BodyCell(lines, level.width, level.height, level.moves, level, x, y);
  }

  /** An excluded cell of a parsed level holds no item (every entry of a
      valid level is some cell `(x, y)`: `Levels.GetIndexCovers`). */
  lemma ExcludedCellsEmpty(lines: seq<string>, level: Levels.LevelData, x: int, y: int)
    requires ParseContent(lines) == Success(level)
    requires 0 <= x < level.width && 0 <= y < level.height
    ensures 0 <= level.width * y + x < |level.items| == |level.excludedCells|
    ensures level.excludedCells[level.width * y + x] ==> level.items[level.width * y + x] == ItemTypes.None
  {
    ParsedCell(lines, level, x, y);
    CellHoldsExcluded(level, x, y, RowTokens(lines[y + 1], level.width)[x]);
  }

  /** What a cell holds for an `X` token. */
  lemma CellHoldsExcluded(level: Levels.LevelData, x: int, y: int, token: string)
    requires CellHolds(level, x, y, token)
    ensures level.excludedCells[level.width * y + x] ==> level.items[level.width * y + x] == ItemTypes.None
  {
  }

  /** The body reads only content lines `1 .. height`. */
  lemma BodyAgrees(lines: seq<string>, other: seq<string>, width: Int32, height: Int32, moves: Int32)
    requires width > 0 && height > 0 && height < |lines| && height < |other|
    requires forall r :: 1 <= r <= height ==> lines[r] == other[r]
    ensures ParseBody(lines, width, height, moves) == ParseBody(other, width, height, moves)
  {
    assert RowsOf(lines, width, height) == RowsOf(other, width, height);
  }

  /** Lines after the last row are never read: once a file has all its
      rows, appending lines changes nothing. */
  lemma ExtraLinesIgnored(lines: seq<string>, extra: seq<string>)
    requires |lines| > 0 && ParseContent(lines) != Failure(MissingRows)
    ensures ParseContent(lines + extra) == ParseContent(lines)
  {
    var all := lines + extra;
    assert all[0] == lines[0];
    var header := Tokenize(lines[0]);
    if |header| >= 3 && ParseInt(header[0]).Some? && ParseInt(header[1]).Some? && ParseInt(header[2]).Some? {
      var width, height := ParseInt(header[0]).value, ParseInt(header[1]).value;
      if width > 0 && height > 0 && height < |lines| {
        BodyAgrees(all, lines, width, height, ParseInt(header[2]).value);
      }
    }
  }

  /** Only the first three header tokens are read: anything after them on
      the header line changes nothing. */
  lemma ExtraHeaderTokensIgnored(lines: seq<string>, other: seq<string>)
    requires |lines| == |other| > 0 && lines[1..] == other[1..]
    requires |Tokenize(lines[0])| >= 3 && |Tokenize(other[0])| >= 3
    requires Tokenize(lines[0])[..3] == Tokenize(other[0])[..3]
    ensures ParseContent(lines) == ParseContent(other)
  {
    var header := ReadHeader(Tokenize(lines[0]));
    HeaderPrefix(Tokenize(lines[0]), Tokenize(other[0]));
    if header.Success? {
      var (width, height, moves) := header.value;
      if width > 0 && height > 0 && height < |lines| {
        forall r | 1 <= r <= height
          ensures lines[r] == other[r]
        {
          assert lines[r] == lines[1..][r - 1];
        }
        BodyAgrees(lines, other, width, height, moves);
      }
    }
  }

  /** The header reads its first three tokens only. */
  lemma HeaderPrefix(header: seq<string>, other: seq<string>)
    requires |header| >= 3 && |other| >= 3 && header[..3] == other[..3]
    ensures ReadHeader(header) == ReadHeader(other)
  {
    assert header[0] == other[0] && header[1] == other[1] && header[2] == other[2];
  }

  // ---------------------------------------------------------------------
  // A header number with a vertical tab attached: the tab is not a token
  // separator, but `int.TryParse` allows it as trailing white space

  /** The header `1<VT> 1 1` splits into `1<VT>`, `1` and `1`. */
  lemma WhiteHeaderTokens()
    ensures Tokenize("1\U{000B} 1 1") == ["1\U{000B}", "1", "1"]
  {
    var tokens := ["1\U{000B}", "1", "1"];
    assert IsToken(tokens[0]) && IsToken(tokens[1]) && IsToken(tokens[2]);
    assert JoinSpaced(tokens[2..]) == "1";
    assert JoinSpaced(tokens[1..]) == "1 1";
    assert JoinSpaced(tokens) == "1\U{000B} 1 1";
    TokenizeRoundTrip(tokens);
  }

  /** `1<VT>` parses to 1: the vertical tab is trailing number white space. */
  lemma WhiteHeaderNumber()
    ensures ParseInt("1\U{000B}") == Some(1)
  {
    NumberWhiteIgnored([], "1", "\U{000B}");
    assert [] + "1" + "\U{000B}" == "1\U{000B}";
    assert DigitsValue("1") == 1;
  }

  /** The file `1<VT> 1 1` / `R` parses to a one-cell level holding a red
      item. */
  lemma WhiteHeaderLevel(lines: seq<string>)
    requires lines == ["1\U{000B} 1 1", "R"]
    ensures ParseContent(lines) == Success(Levels.LevelData(1, 1, 1, [ItemTypes.BlastRed], [false]))
  {
    WhiteHeaderTokens();
    WhiteHeaderNumber();
    ParseIntRoundTrip(1);
    assert ShowInt(1) == "1";
    assert ReadHeader(Tokenize(lines[0])) == Success((1, 1, 1));
    OneRedBody(lines);
  }

  /** A body whose only row is `R` builds the one-cell red level. */
  lemma OneRedBody(lines: seq<string>)
    requires |lines| == 2 && lines[1] == "R"
    ensures ParseBody(lines, 1, 1, 1) == Success(Levels.LevelData(1, 1, 1, [ItemTypes.BlastRed], [false]))
  {
    assert IsToken("R") && JoinSpaced(["R"]) == "R";
    TokenizeRoundTrip(["R"]);
    RowTokensCompact("R", 1);
    assert RowTokens("R", 1)[0] == ["R"[0]] == "R";
    var rows := [["R"]];
    assert RowsOf(lines, 1, 1)[0] == RowTokens(lines[1], 1) == ["R"];
    assert FirstBadToken(["R"], 0) == None;
    assert FirstBadRow(rows, 1, 0) == None;
    var cells := GridCells(rows, 1);
    assert cells == GridCells(rows, 0) + RowCells(rows[0]) && GridCells(rows, 0) == [];
    assert CellOf("R") == Cell(ItemTypes.BlastRed, false);
    assert cells == [Cell(ItemTypes.BlastRed, false)];
    assert ItemsOf(cells) == [ItemTypes.BlastRed] && ExcludedOf(cells) == [false];
    assert RowsOf(lines, 1, 1) == rows;
  }

  // ---------------------------------------------------------------------
  // A worked example: a 2 by 1 level with 5 moves, a red item and an
  // excluded cell, written compactly

  /** The header line `2 1 5` reads as width 2, height 1 and 5 moves. */
  lemma ExampleHeader()
    ensures Tokenize("2 1 5") == ["2", "1", "5"]
    ensures ParseInt("2") == Some(2) && ParseInt("1") == Some(1) && ParseInt("5") == Some(5)
  {
    assert JoinSpaced(["2", "1", "5"]) == "2 1 5";
    TokenizeRoundTrip(["2", "1", "5"]);
    ParseIntRoundTrip(2);
    ParseIntRoundTrip(1);
    ParseIntRoundTrip(5);
  }

  /** The compact row `rX` is a red item followed by an excluded cell. */
  lemma ExampleRow()
    ensures RowTokens("rX", 2) == ["r", "X"]
    ensures ParseCell("r") == Success(Cell(ItemTypes.BlastRed, false))
    ensures ParseCell("X") == Success(Cell(ItemTypes.None, true))
  {
    TokenizeRoundTrip(["rX"]);
    RowTokensCompact("rX", 2);
  }

  /** A body whose only row is `rX` builds that level. */
  lemma ExampleBody(lines: seq<string>)
    requires |lines| == 2 && lines[1] == "rX"
    ensures ParseBody(lines, 2, 1, 5)
      == Success(Levels.LevelData(2, 1, 5, [ItemTypes.BlastRed, ItemTypes.None], [false, true]))
  {
    ExampleRows(lines);
    ExampleCells();
  }

  /** The body's one row is `r`, `X`, and it has no bad token. */
  lemma ExampleRows(lines: seq<string>)
    requires |lines| == 2 && lines[1] == "rX"
    ensures RowsOf(lines, 2, 1) == [["r", "X"]]
    ensures FirstBadRow([["r", "X"]], 2, 0) == None
  {
    ExampleRow();
    assert RowsOf(lines, 2, 1) == [RowTokens(lines[1], 2)];
    assert FirstBadToken(["r", "X"], 0) == None;
  }

  /** The cells of that row, as the two arrays. */
  lemma ExampleCells()
    ensures ItemsOf(GridCells([["r", "X"]], 1)) == [ItemTypes.BlastRed, ItemTypes.None]
    ensures ExcludedOf(GridCells([["r", "X"]], 1)) == [false, true]
  {
    ExampleRow();
    var rows := [["r", "X"]];
    var cells := GridCells(rows, 1);
    assert cells == GridCells(rows, 0) + RowCells(rows[0]) && GridCells(rows, 0) == [];
    assert CellOf("r") == Cell(ItemTypes.BlastRed, false) && CellOf("X") == Cell(ItemTypes.None, true);
    assert cells == [Cell(ItemTypes.BlastRed, false), Cell(ItemTypes.None, true)];
  }

  /** The file `2 1 5` / `rX` parses to that level. */
  lemma ExampleLevel(lines: seq<string>)
    requires lines == ["2 1 5", "rX"]
    ensures ParseContent(lines)
      == Success(Levels.LevelData(2, 1, 5, [ItemTypes.BlastRed, ItemTypes.None], [false, true]))
  {
    ExampleHeader();
    ExampleBody(lines);
  }
}
