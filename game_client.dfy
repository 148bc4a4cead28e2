/** The player page of public/js/game.js: the reroll selection a host builds
    by clicking on a card before asking the server to deal part of it again,
    and the leaderboard scores. The page, its highlighting and the socket are
    left out; what is kept is the selection state and what gets sent. */
module GameClient {

  import opened Wrappers
  import opened Js
  import opened Cards

  // ---------------------------------------------------------------- reroll selection

  /** One entry of `rerollStates`: the chosen type, the argument that will be
      sent, the highlighted cells, and whether the "random tile" button is shown. */
  datatype SelState = SelState(kind: string, arg: string, selected: seq<Pos>, randomButton: bool)

  /** `confirmReroll` sends `random` as `tile`. */
  function EmitType(kind: string): string {
    if kind == "random" then "tile" else kind
  }

  /** `${r + 1},${c + 1}`: the 1-based tile argument. */
  function TileArgText(r: nat, c: nat): string {
    IntToString(r + 1) + "," + IntToString(c + 1)
  }

  /** The `switch (state.type)` of `handleCardClick` for a click at (row, col)
      on the card: the positions to highlight and the argument to send; no
      positions for a click off both diagonals, or for any other type. */
  function Pick(kind: string, row: nat, col: nat): (r: (seq<Pos>, string))
    requires row < 5 && col < 5
    ensures r.0 == [] <==> r.1 == ""
  {
    if kind == "tile" then ([(row, col)], TileArgText(row, col))
    else if kind == "row" then (RowCells(row), IntToString(row + 1))
    else if kind == "column" then (ColumnCells(col), IntToString(col + 1))
    else if kind == "diagonal" then
      if row == col then (MainDiagonal(), "main")
      else if row + col == 4 then (AntiDiagonal(), "anti")
      else ([], "")
    else ([], "")
  }

  /** The selection agrees with the server: the argument that will be sent is
      non-empty only with a highlighted selection, and then `rerollCard`
      parses it back into exactly the highlighted cells. The random tile
      button is shown only for the `random` type. */
  predicate Agrees(st: SelState) {
    (st.arg != "" ==> st.selected != []) &&
    (st.selected != [] ==> Select(EmitType(st.kind), st.arg) == Cells(st.selected)) &&
    (st.randomButton ==> st.kind == "random")
  }

  /** A 1-based index written out and parsed back as `rerollCard` does. */
  lemma IndexRoundTrip(k: nat)
    requires k < 5
    ensures Pred(ParseInt(IntToString(k + 1))) == Int(k)
    ensures ',' !in IntToString(k + 1)
  {
    ParseIntOfNatToString(k + 1);
    var s := NatToString(k + 1);
    assert forall j :: 0 <= j < |s| ==> s[j] != ',';
  }

  /** The tile argument names the tile it was made from. */
  lemma TileArgRoundTrip(r: nat, c: nat)
    requires r < 5 && c < 5
    ensures Select("tile", TileArgText(r, c)) == Cells([(r, c)])
  {
    IndexRoundTrip(r);
    IndexRoundTrip(c);
    var a, b := IntToString(r + 1), IntToString(c + 1);
    assert TileArgText(r, c) == a + [','] + b;
    SplitAppend(a, ',', b);
    SplitNoSep(b, ',');
    assert Split(TileArgText(r, c), ',') == [a, b];
  }

  /** Whatever a click highlights, the argument it records makes
      `rerollCard` deal exactly those cells again. */
  lemma PickRoundTrip(kind: string, row: nat, col: nat)
    requires row < 5 && col < 5
    ensures Pick(kind, row, col).0 != [] ==> Select(kind, Pick(kind, row, col).1) == Cells(Pick(kind, row, col).0)
    ensures Pick(kind, row, col).0 != [] ==> kind != "random"
  {
    if kind == "tile" {
      TileArgRoundTrip(row, col);
    } else if kind == "row" {
      IndexRoundTrip(row);
    } else if kind == "column" {
      IndexRoundTrip(col);
    }
  }

  /** The `switch (state.type)` of `handleCardClick`, as the handler runs it. */
  method PickCells(kind: string, r: nat, c: nat) returns (positions: seq<Pos>, arg: string)
    requires r < 5 && c < 5
    ensures (positions, arg) == Pick(kind, r, c)
  {
    positions, arg := [], "";
    if kind == "tile" {
      positions, arg := [(r, c)], TileArgText(r, c);
    } else if kind == "row" {
      positions, arg := RowCells(r), IntToString(r + 1);
    } else if kind == "column" {
      positions, arg := ColumnCells(c), IntToString(c + 1);
    } else if kind == "diagonal" {
      var isMain, isAnti := r == c, r + c == 4;
      if !isMain && !isAnti {
        return;
      }
      if isMain {
        positions, arg := MainDiagonal(), "main";
      } else {
        positions, arg := AntiDiagonal(), "anti";
      }
    }
  }

  /** A diagonal click: off both diagonals nothing is selected, on the main
      one (the centre included) the main diagonal, otherwise the anti-diagonal. */
  lemma DiagonalPick(row: nat, col: nat)
    requires row < 5 && col < 5
    ensures Pick("diagonal", row, col).0 == [] <==> row != col && row + col != 4
    ensures row == col ==> Pick("diagonal", row, col) == (MainDiagonal(), "main")
    ensures row != col && row + col == 4 ==> Pick("diagonal", row, col) == (AntiDiagonal(), "anti")
  {
  }

  /** A click's cell: both data attributes parse (`parseInt`) to an index on
      the card. */
  function ClickedCell(td: Option<(Option<string>, Option<string>)>): (cell: Option<(nat, nat)>)
    ensures cell.Some? <==> td.Some? && OnCard(ParseOptInt(td.value.0)) && OnCard(ParseOptInt(td.value.1))
    ensures cell.Some? ==> cell.value == (ParseOptInt(td.value.0).i, ParseOptInt(td.value.1).i)
  {
    if td.None? then None
    else
      var row, col := ParseOptInt(td.value.0), ParseOptInt(td.value.1);
      if OnCard(row) && OnCard(col) then Some((row.i, col.i)) else None
  }

  /** The state a click leaves behind still agrees with the server. */
  lemma PickAgrees(st: SelState, row: nat, col: nat)
    requires row < 5 && col < 5 && Agrees(st)
    ensures var pick := Pick(st.kind, row, col); Agrees(st.(arg := pick.1, selected := pick.0))
  {
    PickRoundTrip(st.kind, row, col);
  }

  /** The whole card, as `selectCard` builds it, is what an empty `card`
      argument selects. */
  lemma CardSelection()
    ensures Select("card", "") == Cells(AllCells()) && |AllCells()| == 25
  {
  }

  predicate AllAgree(m: map<string, SelState>) {
    forall pid :: pid in m ==> Agrees(m[pid])
  }

  /** Replacing one player's state by an agreeing one keeps all in agreement. */
  lemma AgreeUpdate(m: map<string, SelState>, pid: string, st: SelState)
    requires AllAgree(m) && Agrees(st)
    ensures AllAgree(m[pid := st])
  {
  }

  /** `rerollStates` and the handlers that change it. */
  class RerollPanel {
    var states: map<string, SelState>

    ghost predicate Valid()
      reads this
    {
      AllAgree(states)
    }

    constructor ()
      ensures Valid() && states == map[]
    {
      states := map[];
    }

    /** `enterRerollMode(playerId)`: a fresh, empty state, unless the player
        is in reroll mode already. */
    method Enter(pid: string)
      requires Valid()
      modifies this
      ensures Valid()
      ensures pid in old(states) ==> states == old(states)
      ensures pid !in old(states) ==> states == old(states)[pid := SelState("", "", [], false)]
    {
      if pid in states {
        return;
      }
      states := states[pid := SelState("", "", [], false)];
    }

    /** `clearSelection(playerId)`. */
    method ClearSelection(pid: string)
      requires Valid()
      modifies this
      ensures Valid()
      ensures pid !in old(states) ==> states == old(states)
      ensures pid in old(states) ==> states == old(states)[pid := old(states)[pid].(selected := [], arg := "")]
    {
      if pid !in states {
        return;
      }
      states := states[pid := states[pid].(selected := [], arg := "")];
    }

    /** `selectCard(playerId)`: all 25 cells, with an empty argument. */
    method SelectCard(pid: string)
      requires Valid() && pid in states && !states[pid].randomButton
      requires states[pid].kind == "card"
      modifies this
      ensures Valid()
      ensures states == old(states)[pid := old(states)[pid].(arg := "", selected := AllCells())]
    {
      states := states[pid := states[pid].(arg := "", selected := AllCells())];
    }

    /** `handleTypeChange(playerId)` with the newly chosen type: the selection
        is cleared, the whole card is selected for `card`, and the random tile
        button is shown only for `random`. */
    method TypeChange(pid: string, kind: string)
      requires Valid()
      modifies this
      ensures Valid()
      ensures pid !in old(states) ==> states == old(states)
      ensures pid in old(states) ==>
                states == old(states)[pid := SelState(kind, "", if kind == "card" then AllCells() else [], kind == "random")]
    {
      if pid !in states {
        return;
      }
      ClearSelection(pid);
      states := states[pid := states[pid].(kind := kind, randomButton := kind == "random")];
      if kind == "card" {
        SelectCard(pid);
      }
    }

    /** `handleCardClick(playerId, e)`, given the clicked cell's `data-row` and
        `data-col` (`None` when the click is not on a cell): nothing happens
        without a state or a type, for the `card` type, or off the card;
        otherwise the selection is cleared and the clicked region, if any,
        selected. */
    method Click(pid: string, td: Option<(Option<string>, Option<string>)>)
      requires Valid()
      modifies this
      ensures Valid()
      ensures pid !in old(states) || old(states)[pid].kind in {"", "card"} || ClickedCell(td).None? ==>
                states == old(states)
      ensures pid in old(states) && old(states)[pid].kind !in {"", "card"} && ClickedCell(td).Some? ==>
                var cell := ClickedCell(td).value;
                var pick := Pick(old(states)[pid].kind, cell.0, cell.1);
                states == old(states)[pid := old(states)[pid].(arg := pick.1, selected := pick.0)]
    {
      if td.None? {
        return;
      }
      if pid !in states || states[pid].kind == "" || states[pid].kind == "card" {
        return;
      }
      var row, col := ParseOptInt(td.value.0), ParseOptInt(td.value.1);
      if row.NotInt? || col.NotInt? || row.i < 0 || row.i > 4 || col.i < 0 || col.i > 4 {
        return;
      }
      SelectAt(pid, row.i, col.i);
    }

    /** The rest of `handleCardClick` once the click is on cell (r, c): the
        selection is cleared and the region the type picks, if any, selected. */
    method SelectAt(pid: string, r: nat, c: nat)
      requires Valid() && pid in states && r < 5 && c < 5
      modifies this
      ensures Valid()
      ensures var pick := Pick(old(states)[pid].kind, r, c);
              states == old(states)[pid := old(states)[pid].(arg := pick.1, selected := pick.0)]
    {
      ghost var before := states;
      ClearSelection(pid);
      var positions, arg := PickCells(states[pid].kind, r, c);
      if |positions| > 0 {
        var st := states[pid].(arg := arg, selected := positions);
        assert st == before[pid].(arg := arg, selected := positions);
        PickAgrees(before[pid], r, c);
        AgreeUpdate(states, pid, st);
        states := states[pid := st];
        assert states == before[pid := st];
      } else {
        assert states == before[pid := before[pid].(arg := arg, selected := positions)];
      }
    }

    /** `selectRandomTile(playerId)`, given the two draws of
        `Math.floor(Math.random() * 5)`; the button is only there for the
        `random` type. */
    method SelectRandomTile(pid: string, r: nat, c: nat)
      requires Valid() && r < 5 && c < 5
      requires pid in states ==> states[pid].randomButton
      modifies this
      ensures Valid()
      ensures pid !in old(states) ==> states == old(states)
      ensures pid in old(states) ==>
                states == old(states)[pid := old(states)[pid].(arg := TileArgText(r, c), selected := [(r, c)])]
    {
      if pid !in states {
        return;
      }
      ClearSelection(pid);
      TileArgRoundTrip(r, c);
      AgreeUpdate(states, pid, states[pid].(arg := TileArgText(r, c), selected := [(r, c)]));
      states := states[pid := states[pid].(arg := TileArgText(r, c), selected := [(r, c)])];
    }

    /** `exitRerollMode(playerId)`: the player's state is dropped. Without a
        state the handler fails before changing anything. */
    method Exit(pid: string)
      requires Valid()
      modifies this
      ensures Valid()
      ensures states == old(states) - {pid}
    {
      if pid !in states {
        return;
      }
      ClearSelection(pid);
      states := states - {pid};
    }

    /** `confirmReroll(playerId)`: without a type, or without an argument for
        a type other than `card`, nothing is sent; otherwise the `reroll`
        request (type and argument) is returned and reroll mode is left. */
    method Confirm(pid: string) returns (request: Option<(string, string)>)
      requires Valid()
      modifies this
      ensures Valid()
      ensures pid !in old(states) || !Sendable(old(states)[pid]) ==> request == None && states == old(states)
      ensures pid in old(states) && Sendable(old(states)[pid]) ==>
                request == Some((EmitType(old(states)[pid].kind), old(states)[pid].arg)) && states == old(states) - {pid}
    {
      if pid !in states || states[pid].kind == "" || (states[pid].kind != "card" && states[pid].arg == "") {
        request := None;
        return;
      }
      var st := states[pid];
      request := Some((EmitType(st.kind), st.arg));
      Exit(pid);
    }
  }

  /** `confirmReroll` sends only with a type, and with an argument unless the
      type is `card`. */
  predicate Sendable(st: SelState) {
    st.kind != "" && (st.kind == "card" || st.arg != "")
  }

  /** What a confirmed request asks the server to deal again is what was
      highlighted: its positions for a fixed selection, and for `card` the
      whole card when the card was selected. */
  lemma ConfirmedRequestMatches(st: SelState)
    requires Agrees(st) && Sendable(st)
    ensures st.kind != "card" ==> Select(EmitType(st.kind), st.arg) == Cells(st.selected)
    ensures st.kind == "card" && st.selected != [] ==> Select("card", st.arg) == Cells(AllCells())
  {
  }

  // ---------------------------------------------------------------- leaderboard

  /** The number of marked tiles of a row, counted from the front. */
  function StampedIn(row: seq<Tile>): (n: nat)
    ensures n <= |row|
  {
    if row == [] then 0 else StampedIn(row[..|row| - 1]) + (if row[|row| - 1].stamped then 1 else 0)
  }

  /** `card.flat()` filtered on `stamped`, row by row. */
  function StampedCount(rows: seq<seq<Tile>>): nat {
    if rows == [] then 0 else StampedCount(rows[..|rows| - 1]) + StampedIn(rows[|rows| - 1])
  }

  predicate RowDone(row: seq<Tile>) {
    forall c :: 0 <= c < |row| ==> row[c].stamped
  }

  /** `card.filter(row => row.every(t => t.stamped)).length`. */
  function RowsDone(rows: seq<seq<Tile>>): (n: nat)
    ensures n <= |rows|
  {
    if rows == [] then 0 else RowsDone(rows[..|rows| - 1]) + (if RowDone(rows[|rows| - 1]) then 1 else 0)
  }

  predicate ColumnDone(card: Card, c: nat)
    requires IsCard(card) && c < 5
  {
    forall r :: 0 <= r < 5 ==> card[r][c].stamped
  }

  /** The completed columns among the first `n`. */
  function ColumnsDone(card: Card, n: nat): (k: nat)
    requires IsCard(card) && n <= 5
    ensures k <= n
  {
    if n == 0 then 0 else ColumnsDone(card, n - 1) + (if ColumnDone(card, n - 1) then 1 else 0)
  }

  predicate MainDone(card: Card) requires IsCard(card) {
    forall i :: 0 <= i < 5 ==> card[i][i].stamped
  }

  predicate AntiDone(card: Card) requires IsCard(card) {
    forall i :: 0 <= i < 5 ==> card[i][4 - i].stamped
  }

  /** A player's leaderboard score: completed rows, columns and diagonals. */
  function Score(card: Card): nat
    requires IsCard(card)
  {
    RowsDone(card) + ColumnsDone(card, 5) + (if MainDone(card) then 1 else 0) + (if AntiDone(card) then 1 else 0)
  }

  /** The score counts at most 5 rows, 5 columns and 2 diagonals, and at most
      25 tiles are marked. */
  lemma ScoreBounds(card: Card)
    requires IsCard(card)
    ensures Score(card) <= 12
    ensures StampedCount(card) <= 25
  {
    StampedCountBound(card);
  }

  lemma {:induction false} StampedCountBound(rows: seq<seq<Tile>>)
    requires forall r :: 0 <= r < |rows| ==> |rows[r]| == 5
    ensures StampedCount(rows) <= 5 * |rows|
    decreases |rows|
  {
    if rows != [] {
      StampedCountBound(rows[..|rows| - 1]);
    }
  }

  predicate AllStamped(card: Card) {
    forall r, c :: 0 <= r < |card| && 0 <= c < |card[r]| ==> card[r][c].stamped
  }

  /** A fully marked card scores 12 with all 25 tiles marked. */
  lemma FullCardScore(card: Card)
    requires IsCard(card) && AllStamped(card)
    ensures Score(card) == 12 && StampedCount(card) == 25
  {
    FullRows(card);
    FullColumns(card, 5);
  }

  lemma {:induction false} FullRows(rows: seq<seq<Tile>>)
    requires forall r :: 0 <= r < |rows| ==> |rows[r]| == 5 && RowDone(rows[r])
    ensures RowsDone(rows) == |rows| && StampedCount(rows) == 5 * |rows|
    decreases |rows|
  {
    if rows != [] {
      FullRows(rows[..|rows| - 1]);
      FullRow(rows[|rows| - 1]);
    }
  }

  lemma {:induction false} FullRow(row: seq<Tile>)
    requires RowDone(row)
    ensures StampedIn(row) == |row|
    decreases |row|
  {
    if row != [] {
      FullRow(row[..|row| - 1]);
    }
  }

  lemma {:induction false} FullColumns(card: Card, n: nat)
    requires IsCard(card) && AllStamped(card) && n <= 5
    ensures ColumnsDone(card, n) == n
    decreases n
  {
    if n > 0 {
      FullColumns(card, n - 1);
    }
  }

  /** The tile count loop of `updateLeaderboard`, then the row, column and
      diagonal checks. */
  method ComputeScore(card: Card) returns (score: nat, stampedCount: nat)
    requires IsCard(card)
    ensures score == Score(card) && stampedCount == StampedCount(card)
  {
    stampedCount := CountMarked(card);
    var columns := CountColumns(card);
    score := RowsDone(card) + columns;
    var mainComplete, antiComplete := true, true;
    for i := 0 to 5
      invariant mainComplete <==> forall k :: 0 <= k < i ==> card[k][k].stamped
      invariant antiComplete <==> forall k :: 0 <= k < i ==> card[k][4 - k].stamped
    {
      if !card[i][i].stamped {
        mainComplete := false;
      }
      if !card[i][4 - i].stamped {
        antiComplete := false;
      }
    }
    if mainComplete {
      score := score + 1;
    }
    if antiComplete {
      score := score + 1;
    }
  }

  /** `card.flat().filter(t => t.stamped).length`, tile by tile. */
  method CountMarked(card: Card) returns (stampedCount: nat)
    requires IsCard(card)
    ensures stampedCount == StampedCount(card)
  {
    stampedCount := 0;
    for r := 0 to 5
      invariant stampedCount == StampedCount(card[..r])
    {
      var inRow := 0;
      for c := 0 to 5
        invariant inRow == StampedIn(card[r][..c])
      {
        if card[r][c].stamped {
          inRow := inRow + 1;
        }
        assert card[r][..c + 1][..c] == card[r][..c];
      }
      assert card[r][..5] == card[r];
      assert card[..r + 1][..r] == card[..r];
      stampedCount := stampedCount + inRow;
    }
    assert card[..5] == card;
  }

  /** The column loop of `updateLeaderboard`: each column is scanned until
      its first unmarked tile. */
  method CountColumns(card: Card) returns (count: nat)
    requires IsCard(card)
    ensures count == ColumnsDone(card, 5)
  {
    count := 0;
    for col := 0 to 5
      invariant count == ColumnsDone(card, col)
    {
      var complete := true;
      var row := 0;
      while row < 5
        invariant 0 <= row <= 5
        invariant complete <==> forall k :: 0 <= k < row ==> card[k][col].stamped
        invariant !complete ==> !ColumnDone(card, col)
      {
        if !card[row][col].stamped {
          complete := false;
          break;
        }
        row := row + 1;
      }
      if complete {
        count := count + 1;
      }
    }
  }

  /** A leaderboard row. */
  datatype Standing = Standing(id: string, name: string, score: nat, stampedCount: nat)

  /** A player as the page receives it. */
  datatype PlayerView = PlayerView(id: string, name: string, card: Card)

  function StandingOf(p: PlayerView): Standing
    requires IsCard(p.card)
  {
    Standing(p.id, p.name, Score(p.card), StampedCount(p.card))
  }

  /** The comparator `b.score - a.score || b.stampedCount - a.stampedCount`
      allows `a` before `b`. */
  predicate Ahead(a: Standing, b: Standing) {
    a.score > b.score || (a.score == b.score && a.stampedCount >= b.stampedCount)
  }

  predicate Ranked(s: seq<Standing>) {
    forall i, j :: 0 <= i < j < |s| ==> Ahead(s[i], s[j])
  }

  /** Inserting into a ranked list, behind every row at least as good. */
  function Insert(x: Standing, s: seq<Standing>): seq<Standing> {
    if s == [] then [x]
    else if Ahead(x, s[0]) && !Ahead(s[0], x) then [x] + s
    else [s[0]] + Insert(x, s[1..])
  }

  lemma {:induction false} InsertRanked(x: Standing, s: seq<Standing>)
    requires Ranked(s)
    ensures Ranked(Insert(x, s)) && multiset(Insert(x, s)) == multiset(s) + multiset{x}
    ensures forall y :: y in Insert(x, s) ==> y == x || y in s
    decreases |s|
  {
    if s == [] {
    } else if Ahead(x, s[0]) && !Ahead(s[0], x) {
      HeadAhead(s);
      ConsRanked(x, s);
    } else {
      var rest := Insert(x, s[1..]);
      InsertRanked(x, s[1..]);
      HeadAhead(s);
      ConsRanked(s[0], rest);
      assert s == [s[0]] + s[1..];
    }
  }

  /** The head of a ranked list is ahead of everything after it. */
  lemma HeadAhead(s: seq<Standing>)
    requires Ranked(s) && s != []
    ensures forall y :: y in s[1..] ==> Ahead(s[0], y)
  {
    forall y | y in s[1..] ensures Ahead(s[0], y) {
      var k :| 0 <= k < |s[1..]| && s[1..][k] == y;
      assert s[k + 1] == y;
    }
  }

  lemma ConsRanked(h: Standing, r: seq<Standing>)
    requires Ranked(r) && forall y :: y in r ==> Ahead(h, y)
    ensures Ranked([h] + r)
  {
    var s := [h] + r;
    forall i, j | 0 <= i < j < |s| ensures Ahead(s[i], s[j]) {
      assert s[j] == r[j - 1];
      if i > 0 {
        assert s[i] == r[i - 1];
      } else {
        assert r[j - 1] in r;
      }
    }
  }

  /** `scoredPlayers.sort(...)`, as an insertion sort that keeps equal rows in
      their original order. */
  function SortStandings(s: seq<Standing>): (r: seq<Standing>)
    ensures Ranked(r) && multiset(r) == multiset(s)
  {
    if s == [] then []
    else
      assert s == s[..|s| - 1] + [s[|s| - 1]];
      var sorted := SortStandings(s[..|s| - 1]);
      InsertRanked(s[|s| - 1], sorted);
      Insert(s[|s| - 1], sorted)
  }

  /** The leaderboard rows of `updateLeaderboard`: every player's score and
      marked count, best first. */
  method Leaderboard(players: seq<PlayerView>) returns (ranked: seq<Standing>)
    requires forall k :: 0 <= k < |players| ==> IsCard(players[k].card)
    ensures |ranked| == |players| && Ranked(ranked)
    ensures multiset(ranked) == multiset(seq(|players|, k requires 0 <= k < |players| => StandingOf(players[k])))
  {
    var scored: seq<Standing> := [];
    for k := 0 to |players|
      invariant |scored| == k && forall j :: 0 <= j < k ==> scored[j] == StandingOf(players[j])
    {
      var score, stampedCount := ComputeScore(players[k].card);
      scored := scored + [Standing(players[k].id, players[k].name, score, stampedCount)];
    }
    assert scored == seq(|players|, k requires 0 <= k < |players| => StandingOf(players[k]));
    ranked := SortStandings(scored);
    assert |ranked| == |multiset(ranked)| == |multiset(scored)| == |scored|;
  }
}
