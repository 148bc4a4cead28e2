/** The hardened win detector of utils/checkWin.js: it accepts loosely shaped
    input (a VS-mode stamp list or a regular-mode card, rules that may not be
    a list, an optional board size) and reports whether, and by which rule,
    the board wins. */
module WinCheck {

  import opened Wrappers
  import opened Js

  /** A cell of a card row: a falsy value, or an object whose `stamped` field
      has the given truthiness. */
  datatype Cell = Blank | Piece(stamped: bool)

  /** One element of the list handed in: `null`/`undefined`, a plain object
      (whose own `row` property may be absent; `col` is read as a number or
      NaN), an array (a card row), or any other value. */
  datatype Entry = Nullish | Obj(row: Option<Num>, col: Num) | ListEntry(cells: seq<Cell>) | Scalar

  /** The first argument: a falsy value, a truthy non-array, or an array. */
  datatype Board = Falsy | NonArray | List(entries: seq<Entry>)

  /** The `options` object: `isVSMode` when it is a boolean, and `Number(boardSize)`. */
  datatype Options = Options(isVSMode: Option<bool>, boardSize: Num)

  datatype Verdict = Verdict(won: bool, condition: Option<string>)

  const DefaultBoardSize := 5

  /** `normalizeRules`: anything but an array counts as no rules. */
  function NormalizeRules(rules: Option<seq<string>>): (r: seq<string>)
    ensures rules.Some? ==> r == rules.value
    ensures rules.None? ==> r == []
  {
    rules.GetOr([])
  }

  /** `resolveBoardSize`: an integer from 3 to 10, else 5. */
  function ResolveBoardSize(value: Num): (n: nat)
    ensures 3 <= n <= 10
    ensures value.Int? && 3 <= value.i <= 10 ==> n == value.i
    ensures !(value.Int? && 3 <= value.i <= 10) ==> n == DefaultBoardSize
  {
    if value.Int? && 3 <= value.i <= 10 then value.i else DefaultBoardSize
  }

  /** `isLikelyVSSquares`: a non-empty array whose first element is a plain
      object carrying its own `row` property. */
  predicate IsLikelyVSSquares(board: Board) {
    board.List? && |board.entries| > 0 && board.entries[0].Obj? && board.entries[0].row.Some?
  }

  /** An explicit boolean `isVSMode` wins over the inferred shape. */
  predicate IsVSMode(board: Board, options: Options) {
    if options.isVSMode.Some? then options.isVSMode.value else IsLikelyVSSquares(board)
  }

  function RowField(e: Entry): Num { if e.Obj? then e.row.GetOr(NotInt) else NotInt }
  function ColField(e: Entry): Num { if e.Obj? then e.col else NotInt }

  /** The destructuring `({ row, col })` throws on `null`/`undefined`, and
      `forEach` on a truthy non-array throws; in VS mode either aborts the call. */
  predicate Throws(board: Board, vs: bool) {
    vs && (board.NonArray? || (board.List? && exists k :: 0 <= k < |board.entries| && board.entries[k].Nullish?))
  }

  /** An entry marks the cell (r, c): both fields are integers naming it. */
  predicate Hits(e: Entry, r: int, c: int) {
    RowField(e) == Int(r) && ColField(e) == Int(c)
  }

  /** Some entry of the list marks (r, c); defined on prefixes so that a
      left-to-right scan can extend it one element at a time. */
  predicate AnyHits(es: seq<Entry>, r: int, c: int) {
    |es| > 0 && (AnyHits(es[..|es| - 1], r, c) || Hits(es[|es| - 1], r, c))
  }

  predicate HitBySome(es: seq<Entry>, r: int, c: int) {
    exists k :: 0 <= k < |es| && Hits(es[k], r, c)
  }

  lemma {:induction false} AnyHitsIff(es: seq<Entry>, r: int, c: int)
    ensures AnyHits(es, r, c) <==> HitBySome(es, r, c)
  {
    if |es| > 0 {
      AnyHitsIff(es[..|es| - 1], r, c);
      assert forall k :: 0 <= k < |es| - 1 ==> es[..|es| - 1][k] == es[k];
    }
  }

  function Entries(board: Board): seq<Entry> { if board.List? then board.entries else [] }

  /** A regular-mode card marks (r, c) when row r is an array whose cell c is
      a stamped tile. */
  predicate CardMarked(es: seq<Entry>, r: int, c: int) {
    0 <= r < |es| && es[r].ListEntry? && 0 <= c < |es[r].cells| && es[r].cells[c].Piece? && es[r].cells[c].stamped
  }

  predicate Marked(board: Board, vs: bool, r: int, c: int) {
    if vs then AnyHits(Entries(board), r, c) else CardMarked(Entries(board), r, c)
  }

  type Grid = seq<seq<bool>>

  predicate Square(g: Grid, n: nat) {
    |g| == n && forall r :: 0 <= r < n ==> |g[r]| == n
  }

  /** The `stampedGrid` the input stands for. */
  function SpecGrid(board: Board, vs: bool, n: nat): (g: Grid)
    ensures Square(g, n)
    ensures forall r, c :: 0 <= r < n && 0 <= c < n ==> (g[r][c] <==> Marked(board, vs, r, c))
  {
    seq(n, r => seq(n, c => Marked(board, vs, r, c)))
  }

  /** The number of `true`s: `.filter(Boolean).length`. */
  function Count(bs: seq<bool>): (k: nat)
    ensures k <= |bs|
  {
    if bs == [] then 0 else (if bs[0] then 1 else 0) + Count(bs[1..])
  }

  function RowsFull(g: Grid): seq<bool> {
    seq(|g|, r requires 0 <= r < |g| => forall c :: 0 <= c < |g[r]| ==> g[r][c])
  }

  function ColumnsFull(g: Grid, n: nat): seq<bool>
    requires Square(g, n)
  {
    seq(n, c requires 0 <= c < n => forall r :: 0 <= r < n ==> g[r][c])
  }

  predicate MainDiagonal(g: Grid, n: nat) requires Square(g, n) {
    forall i :: 0 <= i < n ==> g[i][i]
  }

  predicate AntiDiagonal(g: Grid, n: nat) requires Square(g, n) {
    forall i :: 0 <= i < n ==> g[i][n - 1 - i]
  }

  /** `diagonals.main || diagonals.anti`. */
  predicate AnyDiagonal(g: Grid, n: nat) requires Square(g, n) {
    MainDiagonal(g, n) || AntiDiagonal(g, n)
  }

  predicate Full(g: Grid, n: nat) requires Square(g, n) {
    forall r, c :: 0 <= r < n && 0 <= c < n ==> g[r][c]
  }

  /** The rule cascade at the end of `checkWin`, in its fixed order. */
  function Cascade(rules: seq<string>, rowCount: nat, colCount: nat, diagonal: bool, full: bool): (v: Verdict)
    ensures v.won <==> v.condition.Some?
  {
    if "row" in rules && rowCount >= 1 then Verdict(true, Some("Row"))
    else if "2rows" in rules && rowCount >= 2 then Verdict(true, Some("2 Rows"))
    else if "3rows" in rules && rowCount >= 3 then Verdict(true, Some("3 Rows"))
    else if "column" in rules && colCount >= 1 then Verdict(true, Some("Column"))
    else if "2columns" in rules && colCount >= 2 then Verdict(true, Some("2 Columns"))
    else if "3columns" in rules && colCount >= 3 then Verdict(true, Some("3 Columns"))
    else if "diagonals" in rules && diagonal then Verdict(true, Some("Diagonals"))
    else if "full" in rules && full then Verdict(true, Some("Full Card"))
    else Verdict(false, None)
  }

  function Decide(rules: seq<string>, g: Grid, n: nat): Verdict
    requires Square(g, n)
  {
    Cascade(rules, Count(RowsFull(g)), Count(ColumnsFull(g, n)),
            AnyDiagonal(g, n), Full(g, n))
  }

  /** `checkWin(cardOrStamps, rules, options)`; `None` when the call throws. */
  function CheckWinSpec(board: Board, rules: Option<seq<string>>, options: Options): Option<Verdict> {
    var n := ResolveBoardSize(options.boardSize);
    var vs := IsVSMode(board, options);
    if Throws(board, vs) then None
    else Some(Decide(NormalizeRules(rules), SpecGrid(board, vs, n), n))
  }

  // ---------------------------------------------------------------- the imperative detector

  function GridOf(a: array2<bool>): (g: Grid)
    reads a
    ensures |g| == a.Length0
    ensures forall r :: 0 <= r < a.Length0 ==> |g[r]| == a.Length1
    ensures forall r, c :: 0 <= r < a.Length0 && 0 <= c < a.Length1 ==> g[r][c] == a[r, c]
  {
    seq(a.Length0, r requires 0 <= r < a.Length0 reads a => seq(a.Length1, c requires 0 <= c < a.Length1 reads a => a[r, c]))
  }

  predicate Cleared(grid: array2<bool>)
    reads grid
  {
    forall r, c :: 0 <= r < grid.Length0 && 0 <= c < grid.Length1 ==> !grid[r, c]
  }

  /** The VS-mode `forEach`: each entry whose fields are integers on the board
      marks its cell; `thrown` reports an entry that cannot be destructured. */
  method FillFromStamps(grid: array2<bool>, es: seq<Entry>) returns (thrown: bool)
    requires Cleared(grid)
    modifies grid
    ensures thrown <==> exists k :: 0 <= k < |es| && es[k].Nullish?
    ensures !thrown ==> forall r, c :: 0 <= r < grid.Length0 && 0 <= c < grid.Length1 ==> grid[r, c] == AnyHits(es, r, c)
  {
    var i := 0;
    while i < |es|
      invariant 0 <= i <= |es|
      invariant forall k :: 0 <= k < i ==> !es[k].Nullish?
      invariant forall r, c :: 0 <= r < grid.Length0 && 0 <= c < grid.Length1 ==> grid[r, c] == AnyHits(es[..i], r, c)
    {
      var e := es[i];
      if e.Nullish? {
        return true;
      }
      var row, col := RowField(e), ColField(e);
      if row.Int? && col.Int? && 0 <= row.i < grid.Length0 && 0 <= col.i < grid.Length1 {
        grid[row.i, col.i] := true;
      }
      assert es[..i + 1][..i] == es[..i];
      i := i + 1;
    }
    assert es[..i] == es;
    return false;
  }

  /** The regular-mode double loop: a cell is marked when its row is an array
      and the tile there is a stamped object. */
  method FillFromCard(grid: array2<bool>, es: seq<Entry>)
    modifies grid
    ensures forall r, c :: 0 <= r < grid.Length0 && 0 <= c < grid.Length1 ==> grid[r, c] == CardMarked(es, r, c)
  {
    var r := 0;
    while r < grid.Length0
      invariant 0 <= r <= grid.Length0
      invariant forall r', c :: 0 <= r' < r && 0 <= c < grid.Length1 ==> grid[r', c] == CardMarked(es, r', c)
    {
      var rowData := if r < |es| && es[r].ListEntry? then es[r].cells else [];
      var c := 0;
      while c < grid.Length1
        invariant 0 <= c <= grid.Length1
        invariant forall r', c' :: 0 <= r' < r && 0 <= c' < grid.Length1 ==> grid[r', c'] == CardMarked(es, r', c')
        invariant forall c' :: 0 <= c' < c ==> grid[r, c'] == CardMarked(es, r, c')
      {
        grid[r, c] := c < |rowData| && rowData[c].Piece? && rowData[c].stamped;
        c := c + 1;
      }
      r := r + 1;
    }
  }

  /** The early-exit column scan: `stampedColumns[col]` is cleared at the first
      unmarked cell of the column. */
  method ScanColumns(grid: array2<bool>) returns (columns: seq<bool>)
    requires grid.Length0 == grid.Length1
    ensures columns == ColumnsFull(GridOf(grid), grid.Length0)
  {
    var n := grid.Length0;
    ghost var g := GridOf(grid);
    var stamped := new bool[n](_ => true);
    var col := 0;
    while col < n
      modifies stamped
      invariant 0 <= col <= n
      invariant forall c :: 0 <= c < col ==> stamped[c] == ColumnsFull(g, n)[c]
      invariant forall c :: col <= c < n ==> stamped[c]
    {
      var row := 0;
      while row < n
        modifies stamped
        invariant 0 <= row <= n
        invariant forall r :: 0 <= r < row ==> g[r][col]
        invariant forall c :: 0 <= c < col ==> stamped[c] == ColumnsFull(g, n)[c]
        invariant forall c :: col <= c < n ==> stamped[c]
      {
        if !grid[row, col] {
          stamped[col] := false;
          break;
        }
        row := row + 1;
      }
      col := col + 1;
    }
    columns := stamped[..];
  }

  /** `checkWin` as written: the grid is an `n`-by-`n` array filled by the
      stamp loop or the card loop, the columns are found by the early-exit
      loop, and the cascade decides. */
  method CheckWin(board: Board, rules: Option<seq<string>>, options: Options) returns (res: Option<Verdict>)
    ensures res == CheckWinSpec(board, rules, options)
    ensures res.None? <==> Throws(board, IsVSMode(board, options))
  {
    var n := ResolveBoardSize(options.boardSize);
    var vs := IsVSMode(board, options);
    var grid := new bool[n, n]((_, _) => false);
    if vs {
      if board.NonArray? {
        return None;
      }
      var thrown := FillFromStamps(grid, Entries(board));
      if thrown {
        return None;
      }
    } else {
      FillFromCard(grid, Entries(board));
    }
    var g := GridOf(grid);
    assert g == SpecGrid(board, vs, n) by {
      var s := SpecGrid(board, vs, n);
      forall r | 0 <= r < n ensures g[r] == s[r] {
        assert forall c :: 0 <= c < n ==> g[r][c] == s[r][c];
      }
    }
    var columns := ScanColumns(grid);
    var rowCount := Count(RowsFull(g));
    var colCount := Count(columns);
    res := Some(Cascade(NormalizeRules(rules), rowCount, colCount,
                        AnyDiagonal(g, n), Full(g, n)));
  }

  // ---------------------------------------------------------------- what the verdict means

  /** The rule names in the order the cascade tries them, and the condition
      each one reports. */
  const Priority: seq<string> := ["row", "2rows", "3rows", "column", "2columns", "3columns", "diagonals", "full"]
  const Labels: seq<string> := ["Row", "2 Rows", "3 Rows", "Column", "2 Columns", "3 Columns", "Diagonals", "Full Card"]

  /** When the k-th rule of `Priority` is satisfied. */
  predicate Criterion(k: nat, rowCount: nat, colCount: nat, diagonal: bool, full: bool)
    requires k < 8
  {
    if k < 3 then rowCount >= k + 1
    else if k < 6 then colCount >= k - 2
    else if k == 6 then diagonal
    else full
  }

  predicate Applies(rules: seq<string>, k: nat, rowCount: nat, colCount: nat, diagonal: bool, full: bool)
    requires k < 8
  {
    Priority[k] in rules && Criterion(k, rowCount, colCount, diagonal, full)
  }

  /** The cascade reports a win exactly when some listed rule is satisfied,
      and then it names the first such rule in priority order. */
  lemma CascadeIsFirstApplicableRule(rules: seq<string>, rowCount: nat, colCount: nat, diagonal: bool, full: bool)
    ensures Cascade(rules, rowCount, colCount, diagonal, full).won <==>
              exists k :: 0 <= k < 8 && Applies(rules, k, rowCount, colCount, diagonal, full)
    ensures forall k :: (0 <= k < 8 && Applies(rules, k, rowCount, colCount, diagonal, full) &&
              (forall j :: 0 <= j < k ==> !Applies(rules, j, rowCount, colCount, diagonal, full))) ==>
              Cascade(rules, rowCount, colCount, diagonal, full).condition == Some(Labels[k])
  {
    var v := Cascade(rules, rowCount, colCount, diagonal, full);
    if v.won {
      var k := if Applies(rules, 0, rowCount, colCount, diagonal, full) then 0
        else if Applies(rules, 1, rowCount, colCount, diagonal, full) then 1
        else if Applies(rules, 2, rowCount, colCount, diagonal, full) then 2
        else if Applies(rules, 3, rowCount, colCount, diagonal, full) then 3
        else if Applies(rules, 4, rowCount, colCount, diagonal, full) then 4
        else if Applies(rules, 5, rowCount, colCount, diagonal, full) then 5
        else if Applies(rules, 6, rowCount, colCount, diagonal, full) then 6
        else 7;
      assert Applies(rules, k, rowCount, colCount, diagonal, full);
    }
  }

  lemma {:induction false} CountMonotone(a: seq<bool>, b: seq<bool>)
    requires |a| == |b| && forall i :: 0 <= i < |a| && a[i] ==> b[i]
    ensures Count(a) <= Count(b)
  {
    if a != [] {
      CountMonotone(a[1..], b[1..]);
    }
  }

  lemma {:induction false} CountAllTrue(bs: seq<bool>)
    requires forall i :: 0 <= i < |bs| ==> bs[i]
    ensures Count(bs) == |bs|
  {
    if bs != [] {
      CountAllTrue(bs[1..]);
    }
  }

  lemma {:induction false} CountNoneTrue(bs: seq<bool>)
    requires forall i :: 0 <= i < |bs| ==> !bs[i]
    ensures Count(bs) == 0
  {
    if bs != [] {
      CountNoneTrue(bs[1..]);
    }
  }

  lemma {:induction false} CountWitness(bs: seq<bool>, i: nat)
    requires i < |bs| && bs[i]
    ensures Count(bs) >= 1
  {
    if i > 0 {
      CountWitness(bs[1..], i - 1);
    }
  }

  predicate Covers(g: Grid, h: Grid, n: nat)
    requires Square(g, n) && Square(h, n)
  {
    forall r, c :: 0 <= r < n && 0 <= c < n && g[r][c] ==> h[r][c]
  }

  /** Marking more cells never takes a win away: a board that covers a
      winning board under the same rules wins too. */
  lemma MoreMarksKeepWin(rules: seq<string>, g: Grid, h: Grid, n: nat)
    requires Square(g, n) && Square(h, n) && Covers(g, h, n)
    requires Decide(rules, g, n).won
    ensures Decide(rules, h, n).won
  {
    CountMonotone(RowsFull(g), RowsFull(h));
    CountMonotone(ColumnsFull(g, n), ColumnsFull(h, n));
    CascadeIsFirstApplicableRule(rules, Count(RowsFull(g)), Count(ColumnsFull(g, n)),
      AnyDiagonal(g, n), Full(g, n));
    CascadeIsFirstApplicableRule(rules, Count(RowsFull(h)), Count(ColumnsFull(h, n)),
      AnyDiagonal(h, n), Full(h, n));
    var k :| 0 <= k < 8 && Applies(rules, k, Count(RowsFull(g)), Count(ColumnsFull(g, n)),
      AnyDiagonal(g, n), Full(g, n));
    assert Applies(rules, k, Count(RowsFull(h)), Count(ColumnsFull(h, n)),
      AnyDiagonal(h, n), Full(h, n));
  }

  /** A fully marked board (of any size from 3 up) satisfies every rule, so it
      wins under any rule list naming a known rule, and reports the first one. */
  lemma FullBoardMeetsEveryRule(rules: seq<string>, g: Grid, n: nat, k: nat)
    requires 3 <= n && Square(g, n) && Full(g, n)
    requires k < 8 && Priority[k] in rules
    requires forall j :: 0 <= j < k ==> Priority[j] !in rules
    ensures Decide(rules, g, n) == Verdict(true, Some(Labels[k]))
  {
    CountAllTrue(RowsFull(g));
    CountAllTrue(ColumnsFull(g, n));
    CascadeIsFirstApplicableRule(rules, Count(RowsFull(g)), Count(ColumnsFull(g, n)),
      AnyDiagonal(g, n), Full(g, n));
    assert Applies(rules, k, Count(RowsFull(g)), Count(ColumnsFull(g, n)),
      AnyDiagonal(g, n), Full(g, n));
  }

  /** A board with nothing marked wins under no rules at all. */
  lemma BlankBoardNeverWins(rules: seq<string>, g: Grid, n: nat)
    requires 3 <= n && Square(g, n)
    requires forall r, c :: 0 <= r < n && 0 <= c < n ==> !g[r][c]
    ensures Decide(rules, g, n) == Verdict(false, None)
  {
    assert !g[0][0] && !g[0][n - 1];
    forall r | 0 <= r < n ensures !RowsFull(g)[r] { assert !g[r][0]; }
    forall c | 0 <= c < n ensures !ColumnsFull(g, n)[c] { assert !g[0][c]; }
    CountNoneTrue(RowsFull(g));
    CountNoneTrue(ColumnsFull(g, n));
  }

  /** With the `row` rule, one completely marked row wins and is reported as
      `Row`, whatever else the board holds. */
  lemma FullRowWins(rules: seq<string>, g: Grid, n: nat, r: nat)
    requires Square(g, n) && r < n && forall c :: 0 <= c < n ==> g[r][c]
    requires "row" in rules
    ensures Decide(rules, g, n) == Verdict(true, Some("Row"))
  {
    CountWitness(RowsFull(g), r);
  }

  /** An empty stamp list in VS mode never wins, with any rules and any board size. */
  lemma EmptyStampsNeverWin(rules: Option<seq<string>>, options: Options)
    requires options.isVSMode == Some(true)
    ensures CheckWinSpec(List([]), rules, options) == Some(Verdict(false, None))
  {
    var n := ResolveBoardSize(options.boardSize);
    BlankBoardNeverWins(NormalizeRules(rules), SpecGrid(List([]), true, n), n);
  }

  /** Neither does an empty card, nor anything that is not an array, in regular mode. */
  lemma NoCardNeverWins(board: Board, rules: Option<seq<string>>, options: Options)
    requires !IsVSMode(board, options) && (board == List([]) || !board.List?)
    ensures CheckWinSpec(board, rules, options) == Some(Verdict(false, None))
  {
    var n := ResolveBoardSize(options.boardSize);
    BlankBoardNeverWins(NormalizeRules(rules), SpecGrid(board, false, n), n);
  }

  /** Rules that are not an array never give a win (the call may still throw). */
  lemma NonArrayRulesNeverWin(board: Board, options: Options)
    ensures CheckWinSpec(board, None, options).Some? ==> !CheckWinSpec(board, None, options).value.won
  {
  }

  /** In VS mode a row described by stamps, one per column, wins under `row`,
      whatever the other entries are, as long as none is `null`/`undefined`. */
  lemma StampedRowWins(es: seq<Entry>, rules: seq<string>, options: Options, r: nat)
    requires options.isVSMode == Some(true)
    requires forall k :: 0 <= k < |es| ==> !es[k].Nullish?
    requires r < ResolveBoardSize(options.boardSize) && "row" in rules
    requires forall c :: 0 <= c < ResolveBoardSize(options.boardSize) ==> HitBySome(es, r, c)
    ensures CheckWinSpec(List(es), Some(rules), options) == Some(Verdict(true, Some("Row")))
  {
    var n := ResolveBoardSize(options.boardSize);
    var g := SpecGrid(List(es), true, n);
    forall c | 0 <= c < n ensures g[r][c] {
      AnyHitsIff(es, r, c);
    }
    FullRowWins(rules, g, n, r);
  }

  /** In regular mode a card row of stamped tiles wins under `row`. */
  lemma StampedCardRowWins(es: seq<Entry>, rules: seq<string>, options: Options, r: nat)
    requires options.isVSMode == Some(false)
    requires r < |es| && es[r].ListEntry? && "row" in rules
    requires ResolveBoardSize(options.boardSize) <= |es[r].cells|
    requires forall c :: 0 <= c < ResolveBoardSize(options.boardSize) ==> es[r].cells[c] == Piece(true)
    requires r < ResolveBoardSize(options.boardSize)
    ensures CheckWinSpec(List(es), Some(rules), options) == Some(Verdict(true, Some("Row")))
  {
    var n := ResolveBoardSize(options.boardSize);
    var g := SpecGrid(List(es), false, n);
    forall c | 0 <= c < n ensures g[r][c] {
      assert es[r].cells[c] == Piece(true);
      assert Marked(List(es), false, r, c);
    }
    FullRowWins(rules, g, n, r);
  }

  // ---------------------------------------------------------------- the cases of test/checkWin.test.js

  const RowOnly: seq<string> := ["row"]

  lemma VsEmptyArrayCase()
    ensures CheckWinSpec(List([]), Some(RowOnly), Options(Some(true), NotInt)) == Some(Verdict(false, None))
  {
    EmptyStampsNeverWin(Some(RowOnly), Options(Some(true), NotInt));
  }

  lemma VsRowCase()
    ensures CheckWinSpec(List(seq(5, c => Obj(Some(Int(0)), Int(c)))), Some(RowOnly), Options(Some(true), NotInt))
            == Some(Verdict(true, Some("Row")))
  {
    var es := seq(5, c => Obj(Some(Int(0)), Int(c)));
    forall c | 0 <= c < 5 ensures HitBySome(es, 0, c) {
      assert Hits(es[c], 0, c);
    }
    StampedRowWins(es, RowOnly, Options(Some(true), NotInt), 0);
  }

  lemma RegularRowCase()
    ensures CheckWinSpec(List(seq(5, r => ListEntry(seq(5, c => Piece(r == 1))))), Some(RowOnly), Options(Some(false), NotInt))
            == Some(Verdict(true, Some("Row")))
  {
    var es := seq(5, r => ListEntry(seq(5, c => Piece(r == 1))));
    assert es[1] == ListEntry(seq(5, c => Piece(true)));
    assert ResolveBoardSize(NotInt) == 5;
    assert forall c :: 0 <= c < 5 ==> es[1].cells[c] == Piece(true);
    StampedCardRowWins(es, RowOnly, Options(Some(false), NotInt), 1);
  }

  const SparseCard: seq<Entry> :=
    [ListEntry([Piece(false)]), Nullish, Nullish, ListEntry([Piece(false), Piece(true)]), ListEntry([])]

  /** Under the `row` rule alone, a grid whose last column is blank does not win. */
  lemma RowOnlyNeedsLastColumn(g: Grid, n: nat)
    requires 1 <= n && Square(g, n) && forall r :: 0 <= r < n ==> !g[r][n - 1]
    ensures Decide(RowOnly, g, n) == Verdict(false, None)
  {
    forall r | 0 <= r < n ensures !RowsFull(g)[r] {
      assert !g[r][n - 1];
    }
    CountNoneTrue(RowsFull(g));
  }

  lemma RegularSparseCase()
    ensures CheckWinSpec(List(SparseCard), Some(RowOnly), Options(Some(false), NotInt)) == Some(Verdict(false, None))
  {
    assert forall r :: 0 <= r < 5 ==> !CardMarked(SparseCard, r, 4);
    RowOnlyNeedsLastColumn(SpecGrid(List(SparseCard), false, 5), 5);
  }

  lemma RegularEmptyCase()
    ensures CheckWinSpec(List([]), Some(RowOnly), Options(Some(false), NotInt)) == Some(Verdict(false, None))
  {
    NoCardNeverWins(List([]), Some(RowOnly), Options(Some(false), NotInt));
  }
}
