/** Bingo cards: the 5x5 grid of prompts, how a fresh one is dealt (`generateCard`)
    and how part of one is dealt again (`rerollCard`), server.js lines 48-116. */
module Cards {

  import opened Wrappers
  import opened Js

  /** One cell of a card: its prompt and whether its holder marked it. */
  datatype Tile = Tile(item: string, stamped: bool)

  type Card = seq<seq<Tile>>

  /** A 0-based (row, column) position on a card. */
  type Pos = (int, int)

  predicate IsCard(card: Card) {
    |card| == 5 && forall r :: 0 <= r < 5 ==> |card[r]| == 5
  }

  predicate InRange(p: Pos) { 0 <= p.0 < 5 && 0 <= p.1 < 5 }

  /** The position lists the selectors stand for. */
  function RowCells(r: int): seq<Pos> { seq(5, c => (r, c)) }
  function ColumnCells(c: int): seq<Pos> { seq(5, r => (r, c)) }
  function MainDiagonal(): seq<Pos> { seq(5, i => (i, i)) }
  function AntiDiagonal(): seq<Pos> { seq(5, i => (i, 4 - i)) }
  function AllCells(): seq<Pos> { seq(25, i => (i / 5, i % 5)) }

  /** Every selector's positions are on the card and pairwise distinct. */
  predicate Region(ps: seq<Pos>) {
    (forall k :: 0 <= k < |ps| ==> InRange(ps[k])) && NoDup(ps)
  }

  lemma RegionsAreRegions(r: int)
    requires 0 <= r < 5
    ensures Region(RowCells(r)) && Region(ColumnCells(r))
    ensures Region(MainDiagonal()) && Region(AntiDiagonal()) && Region(AllCells())
  {
    var all := AllCells();
    forall a, b | 0 <= a < b < 25 ensures all[a] != all[b] {
      assert all[a] == (a / 5, a % 5) && all[b] == (b / 5, b % 5);
    }
  }

  // ---------------------------------------------------------------- generateCard

  /** `s.slice(lo, hi)` for non-negative bounds. */
  function Slice<T>(s: seq<T>, lo: nat, hi: nat): (r: seq<T>)
    ensures lo <= hi <= |s| ==> r == s[lo..hi]
  {
    if lo >= |s| || hi <= lo then [] else s[lo..Min(hi, |s|)]
  }

  function Unstamped(items: seq<string>): (row: seq<Tile>)
    ensures |row| == |items|
  {
    seq(|items|, j requires 0 <= j < |items| => Tile(items[j], false))
  }

  /** `generateCard()`, given the shuffled item list that the random sort produced:
      the first 25 items, five to a row, all unmarked. */
  function GenerateCard(shuffled: seq<string>): Card {
    var selected := Slice(shuffled, 0, 25);
    seq(5, i requires 0 <= i < 5 => Unstamped(Slice(selected, i * 5, (i + 1) * 5)))
  }

  /** A dealt card holds only unmarked prompts from the list; with at least 25
      prompts it is a full 5x5 card read row by row from the list, and with no
      repeated prompt in the list no prompt appears on it twice. */
  lemma GenerateCardDeals(shuffled: seq<string>)
    ensures |GenerateCard(shuffled)| == 5
    ensures forall r, c :: 0 <= r < 5 && 0 <= c < |GenerateCard(shuffled)[r]| ==>
              !GenerateCard(shuffled)[r][c].stamped && GenerateCard(shuffled)[r][c].item in shuffled
    ensures |shuffled| >= 25 ==> IsCard(GenerateCard(shuffled))
    ensures |shuffled| >= 25 ==>
              forall r, c :: 0 <= r < 5 && 0 <= c < 5 ==> GenerateCard(shuffled)[r][c].item == shuffled[r * 5 + c]
    ensures |shuffled| >= 25 && NoDup(shuffled) ==>
              forall p, q :: InRange(p) && InRange(q) && p != q ==>
                GenerateCard(shuffled)[p.0][p.1].item != GenerateCard(shuffled)[q.0][q.1].item
  {
    var card: Card := GenerateCard(shuffled);
    var selected := Slice(shuffled, 0, 25);
    forall r: int, c: int | 0 <= r < 5 && 0 <= c < |card[r]|
      ensures !card[r][c].stamped && card[r][c].item in shuffled
    {
      var row := Slice(selected, r * 5, (r + 1) * 5);
      assert card[r] == Unstamped(row);
      assert card[r][c].item == row[c];
      assert row[c] in selected;
    }
    if |shuffled| >= 25 {
      forall r: int, c: int | 0 <= r < 5 && 0 <= c < 5 ensures |card[r]| == 5 && card[r][c].item == shuffled[r * 5 + c] {
        GenerateCardCell(shuffled, r, c);
      }
      if NoDup(shuffled) {
        forall p: Pos, q: Pos | InRange(p) && InRange(q) && p != q
          ensures card[p.0][p.1].item != card[q.0][q.1].item
        {
          assert p.0 * 5 + p.1 != q.0 * 5 + q.1;
        }
      }
    }
  }

  /** With at least 25 prompts, tile (r, c) holds prompt r * 5 + c. */
  lemma GenerateCardCell(shuffled: seq<string>, r: int, c: int)
    requires |shuffled| >= 25 && 0 <= r < 5 && 0 <= c < 5
    ensures |GenerateCard(shuffled)[r]| == 5 && GenerateCard(shuffled)[r][c].item == shuffled[r * 5 + c]
  {
    var selected := Slice(shuffled, 0, 25);
    assert selected == shuffled[..25];
    var row := Slice(selected, r * 5, (r + 1) * 5);
    assert GenerateCard(shuffled)[r] == Unstamped(row);
  }

  // ---------------------------------------------------------------- rerollCard

  /** What a reroll request selects: fixed positions, a randomly chosen line, or
      nothing (the card is then returned as it was). */
  datatype Selector = Cells(positions: seq<Pos>) | RandomRow | RandomColumn | RandomDiagonal | Unchanged

  /** The two pieces `arg.split(',')` destructures for a tile. */
  function TileArg(arg: string): (Num, Num) {
    var parts := Split(arg, ',');
    (Pred(ParseInt(parts[0])), Pred(ParseOptInt(if |parts| > 1 then Some(parts[1]) else None)))
  }

  predicate OnCard(n: Num) { n.Int? && 0 <= n.i <= 4 }

  /** The selector parse at the head of `rerollCard`: 1-based row, column and
      tile arguments, `main`/`anti` diagonals, the whole card, random lines. */
  function Select(kind: string, arg: string): (sel: Selector)
    ensures sel.Cells? ==> Region(sel.positions)
  {
    if kind == "tile" then
      var (row, col) := TileArg(arg);
      if OnCard(row) && OnCard(col) then Cells([(row.i, col.i)]) else Unchanged
    else if kind == "row" then
      var row := Pred(ParseInt(arg));
      if OnCard(row) then (RegionsAreRegions(row.i); Cells(RowCells(row.i))) else Unchanged
    else if kind == "column" then
      var col := Pred(ParseInt(arg));
      if OnCard(col) then (RegionsAreRegions(col.i); Cells(ColumnCells(col.i))) else Unchanged
    else if kind == "diagonal" then
      RegionsAreRegions(0);
      if arg == "main" then Cells(MainDiagonal())
      else if arg == "anti" then Cells(AntiDiagonal())
      else Unchanged
    else if kind == "card" then (RegionsAreRegions(0); Cells(AllCells()))
    else if kind == "random_row" then RandomRow
    else if kind == "random_column" then RandomColumn
    else if kind == "random_diagonal" then RandomDiagonal
    else Unchanged
  }

  function CardItems(card: Card): set<string> {
    set r, c | 0 <= r < |card| && 0 <= c < |card[r]| :: card[r][c].item
  }

  /** `itemsList.filter(i => !currentItems.has(i))`. */
  function Available(card: Card, items: seq<string>): (av: seq<string>)
    ensures forall x :: x in av <==> x in items && x !in CardItems(card)
    ensures NoDup(items) ==> NoDup(av)
  {
    if items == [] then []
    else
      var rest := Available(card, items[1..]);
      assert forall x :: x in items[1..] ==> x in items;
      if items[0] in CardItems(card) then rest
      else
        assert NoDup(items) ==> items[0] !in items[1..];
        [items[0]] + rest
  }

  /** The first index of `x` in `s` (what `indexOf` returns when `x` occurs). */
  function IndexOf(s: seq<string>, x: string): (k: nat)
    requires x in s
    ensures k < |s| && s[k] == x && forall j :: 0 <= j < k ==> s[j] != x
  {
    if s[0] == x then 0 else 1 + IndexOf(s[1..], x)
  }

  function At(card: Card, p: Pos): Tile
    requires IsCard(card) && InRange(p)
  {
    card[p.0][p.1]
  }

  /** The cells a non-empty selector picks; for the `random_*` selectors the
      line is an arbitrary pick standing for `Math.random`. */
  method ChoosePositions(sel: Selector) returns (positions: seq<Pos>)
    requires !sel.Unchanged?
    requires sel.Cells? ==> Region(sel.positions)
    ensures Region(positions)
    ensures sel.Cells? ==> positions == sel.positions
    ensures sel.RandomRow? ==> exists r :: 0 <= r < 5 && positions == RowCells(r)
    ensures sel.RandomColumn? ==> exists c :: 0 <= c < 5 && positions == ColumnCells(c)
    ensures sel.RandomDiagonal? ==> positions == MainDiagonal() || positions == AntiDiagonal()
  {
    RegionsAreRegions(0);
    if sel.Cells? {
      positions := sel.positions;
    } else if sel.RandomRow? {
      var r :| 0 <= r < 5;
      RegionsAreRegions(r);
      positions := RowCells(r);
    } else if sel.RandomColumn? {
      var c :| 0 <= c < 5;
      RegionsAreRegions(c);
      positions := ColumnCells(c);
    } else {
      var pickMain: bool :| true;
      positions := if pickMain then MainDiagonal() else AntiDiagonal();
    }
  }

  /** The card with the cell at `p` replaced by `t`. */
  function Put(card: Card, p: Pos, t: Tile): (r: Card)
    requires IsCard(card) && InRange(p)
    ensures IsCard(r) && At(r, p) == t
    ensures forall q :: InRange(q) && q != p ==> At(r, q) == At(card, q)
  {
    card[p.0 := card[p.0][p.1 := t]]
  }

  /** `available[randomIndex]` followed by `available.splice(available.indexOf(x), 1)`,
      with the index an arbitrary pick. */
  method Take(available: seq<string>) returns (x: string, rest: seq<string>)
    requires |available| > 0
    ensures x in available && |rest| == |available| - 1
    ensures forall y :: y in rest ==> y in available
    ensures NoDup(available) ==> NoDup(rest) && x !in rest
  {
    var k :| 0 <= k < |available|;
    x := available[k];
    var j := IndexOf(available, x);
    rest := available[..j] + available[j + 1..];
    SpliceOut(available, j);
  }

  /** Removing the element at `j` leaves the others, without repeats if there
      were none, and without that element. */
  lemma SpliceOut(s: seq<string>, j: nat)
    requires j < |s|
    ensures var r := s[..j] + s[j + 1..];
            |r| == |s| - 1 && (forall y :: y in r ==> y in s) && (NoDup(s) ==> NoDup(r) && s[j] !in r)
  {
    var r := s[..j] + s[j + 1..];
    assert forall m :: 0 <= m < |r| ==> r[m] == if m < j then s[m] else s[m + 1];
    forall y | y in r ensures y in s {
      var m :| 0 <= m < |r| && r[m] == y;
    }
    if NoDup(s) {
      forall a, b | 0 <= a < b < |r| ensures r[a] != r[b] {
        var a', b' := if a < j then a else a + 1, if b < j then b else b + 1;
        assert r[a] == s[a'] && r[b] == s[b'];
      }
      forall m | 0 <= m < |r| ensures r[m] != s[j] {
        var m' := if m < j then m else m + 1;
        assert r[m] == s[m'];
      }
    }
  }

  /** The `positions.forEach` loop of `rerollCard`: each cell in turn gets an
      arbitrary item of `pool` (standing for the random index), which is then
      spliced out of the pool; once the pool is empty the remaining cells are
      left alone. */
  method DealInto(card: Card, positions: seq<Pos>, pool: seq<string>)
    returns (newCard: Card, replaced: nat)
    requires IsCard(card) && Region(positions)
    ensures IsCard(newCard)
    ensures replaced == Min(|positions|, |pool|)
    ensures forall p :: InRange(p) && p !in positions ==> At(newCard, p) == At(card, p)
    ensures forall k :: replaced <= k < |positions| ==> At(newCard, positions[k]) == At(card, positions[k])
    ensures forall k :: 0 <= k < replaced ==>
              !At(newCard, positions[k]).stamped && At(newCard, positions[k]).item in pool
    ensures NoDup(pool) ==> forall a, b :: 0 <= a < b < replaced ==>
              At(newCard, positions[a]).item != At(newCard, positions[b]).item
  {
    var available := pool;
    newCard := card;
    replaced := 0;
    var i := 0;
    while i < |positions|
      invariant 0 <= i <= |positions|
      invariant IsCard(newCard)
      invariant replaced == Min(i, |pool|) && |available| == |pool| - replaced
      invariant forall x :: x in available ==> x in pool
      invariant forall p :: InRange(p) && p !in positions ==> At(newCard, p) == At(card, p)
      invariant forall k :: replaced <= k < |positions| ==> At(newCard, positions[k]) == At(card, positions[k])
      invariant forall k :: 0 <= k < replaced ==>
                  !At(newCard, positions[k]).stamped && At(newCard, positions[k]).item in pool
      invariant NoDup(pool) ==> NoDup(available)
      invariant NoDup(pool) ==> forall k :: 0 <= k < replaced ==> At(newCard, positions[k]).item !in available
      invariant NoDup(pool) ==> forall a, b :: 0 <= a < b < replaced ==>
                  At(newCard, positions[a]).item != At(newCard, positions[b]).item
    {
      var p := positions[i];
      if |available| > 0 {
        var x, rest := Take(available);
        if NoDup(pool) {
          PlaceKeepsDistinct(newCard, positions, replaced, available, x, rest);
        }
        newCard, available := Put(newCard, p, Tile(x, false)), rest;
        replaced := replaced + 1;
      }
      i := i + 1;
    }
  }

  /** Placing an item taken from the available list keeps the placed items
      pairwise distinct and out of what is left. */
  lemma PlaceKeepsDistinct(card: Card, positions: seq<Pos>, placed: nat, available: seq<string>,
                           x: string, rest: seq<string>)
    requires IsCard(card) && Region(positions) && placed < |positions|
    requires forall k :: 0 <= k < placed ==> At(card, positions[k]).item !in available
    requires forall a, b :: 0 <= a < b < placed ==> At(card, positions[a]).item != At(card, positions[b]).item
    requires x in available && x !in rest && forall y :: y in rest ==> y in available
    ensures var next := Put(card, positions[placed], Tile(x, false));
            (forall k :: 0 <= k <= placed ==> At(next, positions[k]).item !in rest) &&
            forall a, b :: 0 <= a < b <= placed ==> At(next, positions[a]).item != At(next, positions[b]).item
  {
    var next := Put(card, positions[placed], Tile(x, false));
    forall k | 0 <= k < placed ensures At(next, positions[k]) == At(card, positions[k]) {
      assert positions[k] != positions[placed];
    }
  }

  /** What `rerollCard(card, type, arg)` promises of its result `newCard`,
      where `positions` are the cells the selector chose and `replaced` how
      many of them got a new prompt before the available list ran out. */
  ghost predicate RerollOutcome(card: Card, kind: string, arg: string, items: seq<string>,
                          newCard: Card, positions: seq<Pos>, replaced: nat)
    requires IsCard(card)
  {
    IsCard(newCard) && Region(positions) &&
    // the selector decides the cells
    (Select(kind, arg).Unchanged? ==> newCard == card && positions == []) &&
    (Select(kind, arg).Cells? ==> positions == Select(kind, arg).positions) &&
    (Select(kind, arg).RandomRow? ==> exists r :: 0 <= r < 5 && positions == RowCells(r)) &&
    (Select(kind, arg).RandomColumn? ==> exists c :: 0 <= c < 5 && positions == ColumnCells(c)) &&
    (Select(kind, arg).RandomDiagonal? ==> positions == MainDiagonal() || positions == AntiDiagonal()) &&
    // only selected cells change, and replacement stops once the available list is empty
    replaced == Min(|positions|, |Available(card, items)|) &&
    (forall p :: InRange(p) && p !in positions ==> At(newCard, p) == At(card, p)) &&
    (forall k :: replaced <= k < |positions| ==> At(newCard, positions[k]) == At(card, positions[k])) &&
    // a replaced cell is unmarked and holds a listed prompt that was not on the card
    (forall k :: 0 <= k < replaced ==>
       !At(newCard, positions[k]).stamped &&
       At(newCard, positions[k]).item in items && At(newCard, positions[k]).item !in CardItems(card)) &&
    // and no prompt is dealt twice in one reroll when the list has no repeats
    (NoDup(items) ==> forall a, b :: 0 <= a < b < replaced ==>
       At(newCard, positions[a]).item != At(newCard, positions[b]).item)
  }

  /** `rerollCard(card, type, arg)`. */
  method RerollCard(card: Card, kind: string, arg: string, items: seq<string>)
    returns (newCard: Card, positions: seq<Pos>, replaced: nat)
    requires IsCard(card)
    ensures RerollOutcome(card, kind, arg, items, newCard, positions, replaced)
  {
    var sel := Select(kind, arg);
    if sel.Unchanged? {
      return card, [], 0;
    }
    positions := ChoosePositions(sel);
    newCard, replaced := DealInto(card, positions, Available(card, items));
  }

  // ---------------------------------------------------------------- the server's copy of the positions

  /** A raw coordinate pair as the `reroll` handler computes it in VS mode:
      parsed but never range-checked, so it may hold NaN or an off-card index. */
  type RawPos = (Num, Num)

  function Lift(ps: seq<Pos>): (raw: seq<RawPos>)
    ensures |raw| == |ps|
    ensures forall k :: 0 <= k < |ps| ==> raw[k] == (Int(ps[k].0), Int(ps[k].1))
  {
    seq(|ps|, k requires 0 <= k < |ps| => (Int(ps[k].0), Int(ps[k].1)))
  }

  /** The `reroll` handler's own recomputation of the rerolled positions in VS
      mode (server.js 482-502), used to clear stamps: it repeats the selector
      parse without the range checks and knows nothing of the `random_*`
      selectors. */
  function RerolledPositions(kind: string, arg: string): seq<RawPos> {
    if kind == "tile" then [TileArg(arg)]
    else if kind == "row" then
      var row := Pred(ParseInt(arg));
      seq(5, c => (row, Int(c)))
    else if kind == "column" then
      var col := Pred(ParseInt(arg));
      seq(5, r => (Int(r), col))
    else if kind == "diagonal" then
      if arg == "main" then Lift(MainDiagonal())
      else if arg == "anti" then Lift(AntiDiagonal())
      else []
    else if kind == "card" then Lift(AllCells())
    else []
  }

  /** Whenever `rerollCard` takes fixed positions, the handler's recomputation
      names exactly those positions. */
  lemma RerolledPositionsAgree(kind: string, arg: string)
    requires Select(kind, arg).Cells?
    ensures RerolledPositions(kind, arg) == Lift(Select(kind, arg).positions)
  {
  }

  /** ... and for a random line the handler names no position at all, although
      `rerollCard` replaced five cells. */
  lemma RandomRerollNamesNothing(kind: string, arg: string)
    requires Select(kind, arg).RandomRow? || Select(kind, arg).RandomColumn? || Select(kind, arg).RandomDiagonal?
    ensures RerolledPositions(kind, arg) == []
  {
  }
}
