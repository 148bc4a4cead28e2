/** The older win check inside server.js (lines 118-175), which the `stamp`
    handler calls. It is hard-wired to 5x5 and trusts its input, and it
    differs from the hardened detector of utils/checkWin.js on two inputs. */
module ServerWin {

  import opened Wrappers
  import opened Js
  import Cards
  import opened Stamps
  import opened WinCheck

  /** What the handler passes: a player's stamp list (VS) or card (regular). */
  datatype LegacyArg = StampList(stamps: seq<Stamp>) | CardArg(card: Cards.Card)

  /** VS mode is detected by a non-empty array whose first element owns `row`;
      every stamp does, a card row does not. */
  predicate LegacyIsVS(arg: LegacyArg) {
    arg.StampList? && |arg.stamps| > 0
  }

  /** `stampedGrid[row][col] = true` throws unless `row` indexes one of the
      five grid rows; an off-board `col` only adds a property that no later
      test looks at. */
  predicate StampsWritable(stamps: seq<Stamp>) {
    forall k :: 0 <= k < |stamps| ==> Cards.OnCard(stamps[k].row)
  }

  /** `card[row][col].stamped` is read for every row and column below 5. */
  predicate CardReadable(card: Cards.Card) {
    |card| >= 5 && forall r :: 0 <= r < 5 ==> |card[r]| >= 5
  }

  function LegacyStampGrid(stamps: seq<Stamp>): (g: Grid)
    ensures Square(g, 5)
  {
    seq(5, r => seq(5, c => exists k :: 0 <= k < |stamps| && stamps[k].row == Int(r) && stamps[k].col == Int(c)))
  }

  function LegacyCardGrid(card: Cards.Card): (g: Grid)
    requires CardReadable(card)
    ensures Square(g, 5)
  {
    seq(5, r requires 0 <= r < 5 => seq(5, c requires 0 <= c < 5 => card[r][c].stamped))
  }

  /** The legacy `checkWin(cardOrStamps, rules)`: `None` when it throws.
      The rule cascade is the hardened one without the condition name. */
  function LegacyCheckWin(arg: LegacyArg, rules: seq<string>): Option<bool> {
    if LegacyIsVS(arg) then
      if StampsWritable(arg.stamps) then Some(Decide(rules, LegacyStampGrid(arg.stamps), 5).won) else None
    else if arg.CardArg? && CardReadable(arg.card) then
      Some(Decide(rules, LegacyCardGrid(arg.card), 5).won)
    else None
  }

  /** A dealt card is always readable, so the regular branch never throws. */
  lemma LegacyCardNeverThrows(card: Cards.Card, rules: seq<string>)
    requires Cards.IsCard(card)
    ensures LegacyCheckWin(CardArg(card), rules).Some?
  {
  }

  // ---------------------------------------------------------------- the hardened reading

  function ToEntry(s: Stamp): Entry { Obj(Some(s.row), s.col) }

  function ToEntries(stamps: seq<Stamp>): (es: seq<Entry>)
    ensures |es| == |stamps| && forall k :: 0 <= k < |es| ==> !es[k].Nullish?
  {
    seq(|stamps|, k requires 0 <= k < |stamps| => ToEntry(stamps[k]))
  }

  function CardEntries(card: Cards.Card): seq<Entry> {
    seq(|card|, r requires 0 <= r < |card| =>
      ListEntry(seq(|card[r]|, c requires 0 <= c < |card[r]| => Piece(card[r][c].stamped))))
  }

  /** The win test the VS branch should have run: utils/checkWin.js with
      `isVSMode: true` on the player's stamps. */
  function VsWins(stamps: seq<Stamp>, rules: seq<string>): bool {
    var res := CheckWinSpec(List(ToEntries(stamps)), Some(rules), Options(Some(true), NotInt));
    res.Some? && res.value.won
  }

  /** The corrected VS test, run by the detector of utils/checkWin.js. */
  method VsCheck(stamps: seq<Stamp>, rules: seq<string>) returns (won: bool)
    ensures won == VsWins(stamps, rules)
  {
    var verdict := CheckWin(List(ToEntries(stamps)), Some(rules), Options(Some(true), NotInt));
    won := verdict.Some? && verdict.value.won;
  }

  /** The hardened check never throws on a stamp list. */
  lemma VsWinsNeverThrows(stamps: seq<Stamp>, rules: seq<string>)
    ensures CheckWinSpec(List(ToEntries(stamps)), Some(rules), Options(Some(true), NotInt)).Some?
  {
  }

  /** With no stamps there is no win. */
  lemma VsWinsEmpty(rules: seq<string>)
    ensures !VsWins([], rules)
  {
    assert ToEntries([]) == [];
    EmptyStampsNeverWin(Some(rules), Options(Some(true), NotInt));
  }

  /** On every input where the old check does not throw, both agree. */
  lemma LegacyAgreesOnStamps(stamps: seq<Stamp>, rules: seq<string>)
    requires |stamps| > 0 && StampsWritable(stamps)
    ensures LegacyCheckWin(StampList(stamps), rules) == Some(VsWins(stamps, rules))
  {
    var es := ToEntries(stamps);
    var g := SpecGrid(List(es), true, 5);
    var h := LegacyStampGrid(stamps);
    forall r, c | 0 <= r < 5 && 0 <= c < 5 ensures g[r][c] == h[r][c] {
      AnyHitsIff(es, r, c);
      if h[r][c] {
        var k :| 0 <= k < |stamps| && stamps[k].row == Int(r) && stamps[k].col == Int(c);
        assert Hits(es[k], r, c);
      }
      if g[r][c] {
        var k :| 0 <= k < |es| && Hits(es[k], r, c);
        assert stamps[k].row == Int(r) && stamps[k].col == Int(c);
      }
    }
    assert g == h by {
      forall r | 0 <= r < 5 ensures g[r] == h[r] {
        assert forall c :: 0 <= c < 5 ==> g[r][c] == h[r][c];
      }
    }
  }

  /** ... and on a dealt card the old check agrees with the hardened one in
      regular mode. */
  lemma LegacyAgreesOnCards(card: Cards.Card, rules: seq<string>)
    requires Cards.IsCard(card)
    ensures LegacyCheckWin(CardArg(card), rules) ==
            Some(CheckWinSpec(List(CardEntries(card)), Some(rules), Options(Some(false), NotInt)).value.won)
  {
    var g := SpecGrid(List(CardEntries(card)), false, 5);
    var h := LegacyCardGrid(card);
    assert g == h by {
      forall r | 0 <= r < 5 ensures g[r] == h[r] {
        assert forall c :: 0 <= c < 5 ==> g[r][c] == h[r][c];
      }
    }
  }

  // ---------------------------------------------------------------- where the old check throws

  /** A VS player who removes the last stamp hands the old check `[]`, which
      is not recognised as a stamp list and is then read as a card. */
  lemma LegacyThrowsOnEmptyStamps(rules: seq<string>)
    ensures LegacyCheckWin(StampList([]), rules).None?
    ensures !VsWins([], rules)
  {
    VsWinsEmpty(rules);
  }

  /** A stamp request with an off-board row is stored unchecked, and the old
      check then writes through an undefined grid row. */
  lemma LegacyThrowsOnOffBoardRow(rules: seq<string>)
    ensures LegacyCheckWin(StampList([Stamp(Int(5), Int(0), "red")]), rules).None?
    ensures !VsWins([Stamp(Int(5), Int(0), "red")], rules)
  {
    var stamps := [Stamp(Int(5), Int(0), "red")];
    var es := ToEntries(stamps);
    var g := SpecGrid(List(es), true, 5);
    forall r, c | 0 <= r < 5 && 0 <= c < 5 ensures !g[r][c] {
      AnyHitsIff(es, r, c);
      assert !Hits(es[0], r, c);
    }
    BlankBoardNeverWins(rules, g, 5);
  }
}
