/** The session engine of server.js: the stored game and player records, the
    in-memory flag allowance and vote maps, and the socket handlers that move
    them (`join_room`, `stamp`, `reroll`, `new_game`, `throw_flag`,
    `cast_vote`). Each handler is one atomic step; reads and writes of the
    database become reads and updates of the `games` and `players` maps, and
    every broadcast is an entry of the ghost `log`. */
module Engine {

  import opened Wrappers
  import opened Js
  import opened Cards
  import opened Stamps
  import opened ServerWin
  import opened Votes
  import opened WinCheck

  type PlayerId = string
  type GameId = string

  datatype Mode = Regular | VS
  datatype Status = Active | Ended

  /** A game row: its mode, status, winner, `rules.winConditions`, the VS
      shared card, and its players in the order the database lists them. */
  datatype Game = Game(mode: Mode, status: Status, winner: Option<string>, rules: seq<string>,
                       sharedCard: Card, roster: seq<PlayerId>)

  /** A player row. */
  datatype Player = Player(name: string, gameId: GameId, card: Card, color: string, stamps: seq<Stamp>)

  /** The broadcasts. */
  datatype Event =
    | UpdateState(gameId: GameId)
    | Win(gameId: GameId, playerName: string)
    | StartVote(gameId: GameId, flaggerId: PlayerId, targetPlayerId: PlayerId, row: Num, col: Num)
    | VoteUpdate(gameId: GameId, votesFor: nat, votesAgainst: nat, votesCast: nat, totalPlayers: nat)
    | VoteResult(gameId: GameId, success: bool)

  const InitialFlags := 2

  // ---------------------------------------------------------------- what the stored records keep

  predicate RosterIn(players: map<PlayerId, Player>, roster: seq<PlayerId>) {
    forall p :: p in roster ==> p in players
  }

  /** The stamp lists of a roster, in roster order. */
  function Lists(players: map<PlayerId, Player>, roster: seq<PlayerId>): (ls: seq<seq<Stamp>>)
    requires RosterIn(players, roster)
    ensures |ls| == |roster| && forall i :: 0 <= i < |roster| ==> ls[i] == players[roster[i]].stamps
  {
    seq(|roster|, i requires 0 <= i < |roster| => players[roster[i]].stamps)
  }

  /** Every game's roster holds exactly its players, once each; every card is
      a 5x5 card; and in every VS game no cell is held by two players. */
  predicate WellFormed(games: map<GameId, Game>, players: map<PlayerId, Player>) {
    (forall g :: g in games ==>
       NoDup(games[g].roster) && IsCard(games[g].sharedCard) &&
       forall p :: p in games[g].roster ==> p in players && players[p].gameId == g) &&
    (forall p :: p in players ==>
       players[p].gameId in games && p in games[players[p].gameId].roster && IsCard(players[p].card)) &&
    (forall g :: g in games && games[g].mode == VS ==> Exclusive(Lists(players, games[g].roster)))
  }

  /** Replacing one player's record, keeping the game and a 5x5 card, keeps
      the records well formed when the player's VS game stays exclusive. */
  lemma UpdateOnePlayer(games: map<GameId, Game>, players: map<PlayerId, Player>, pid: PlayerId, player: Player)
    requires WellFormed(games, players) && pid in players
    requires player.gameId == players[pid].gameId && IsCard(player.card)
    requires games[player.gameId].mode == VS ==> Exclusive(Lists(players[pid := player], games[player.gameId].roster))
    ensures WellFormed(games, players[pid := player])
  {
    var g := player.gameId;
    UpdatePlayersOfGame(games, players, players[pid := player], g, games[g]);
    assert games[g := games[g]] == games;
  }

  /** Changing a game's status or winner keeps the records well formed. */
  lemma RestatusKeepsWellFormed(games: map<GameId, Game>, players: map<PlayerId, Player>, g: GameId, game: Game)
    requires WellFormed(games, players) && g in games
    requires game.roster == games[g].roster && game.mode == games[g].mode && game.sharedCard == games[g].sharedCard
    ensures WellFormed(games[g := game], players)
  {
    var games' := games[g := game];
    forall h | h in games' && games'[h].mode == VS ensures Exclusive(Lists(players, games'[h].roster)) {
      assert games'[h].roster == games[h].roster;
    }
  }

  /** A player appears in no roster but the one of their own game. */
  lemma OnlyOwnRoster(games: map<GameId, Game>, players: map<PlayerId, Player>, pid: PlayerId, g: GameId)
    requires WellFormed(games, players) && pid in players && g in games && g != players[pid].gameId
    ensures pid !in games[g].roster
  {
  }

  /** Replacing players of one game only, keeping each one's game and a 5x5
      card, keeps the records well formed when that game stays exclusive. */
  lemma UpdatePlayersOfGame(games: map<GameId, Game>, players: map<PlayerId, Player>,
                            next: map<PlayerId, Player>, g: GameId, game: Game)
    requires WellFormed(games, players) && g in games
    requires game.roster == games[g].roster && IsCard(game.sharedCard)
    requires next.Keys == players.Keys
    requires forall p :: p in players && p !in games[g].roster ==> next[p] == players[p]
    requires forall p :: p in games[g].roster ==> next[p].gameId == g && IsCard(next[p].card)
    requires game.mode == VS ==> Exclusive(Lists(next, game.roster))
    ensures WellFormed(games[g := game], next)
  {
    var after := games[g := game];
    RostersAfterUpdate(games, players, next, g, after);
    OwnersAfterUpdate(games, players, next, g, after);
    ExclusiveAfterUpdate(games, players, next, g, after);
  }

  /** The parts of `UpdatePlayersOfGame`, with `after` the updated games:
      every roster still names its own players, ... */
  lemma RostersAfterUpdate(games: map<GameId, Game>, players: map<PlayerId, Player>,
                           next: map<PlayerId, Player>, g: GameId, after: map<GameId, Game>)
    requires WellFormed(games, players) && g in games && after.Keys == games.Keys
    requires forall h :: h in games && h != g ==> after[h] == games[h]
    requires after[g].roster == games[g].roster && IsCard(after[g].sharedCard)
    requires next.Keys == players.Keys
    requires forall p :: p in players && p !in games[g].roster ==> next[p] == players[p]
    requires forall p :: p in games[g].roster ==> next[p].gameId == g
    ensures forall h :: h in after ==>
              NoDup(after[h].roster) && IsCard(after[h].sharedCard) &&
              forall p :: p in after[h].roster ==> p in next && next[p].gameId == h
  {
    forall h | h in after && h != g
      ensures forall p :: p in games[h].roster ==> p in next && next[p].gameId == h
    {
      OtherGameUntouched(games, players, next, g, h);
    }
  }

  /** ... every player still sits in its game's roster and holds a 5x5 card, ... */
  lemma OwnersAfterUpdate(games: map<GameId, Game>, players: map<PlayerId, Player>,
                          next: map<PlayerId, Player>, g: GameId, after: map<GameId, Game>)
    requires WellFormed(games, players) && g in games && after.Keys == games.Keys
    requires forall h :: h in games && h != g ==> after[h] == games[h]
    requires after[g].roster == games[g].roster
    requires next.Keys == players.Keys
    requires forall p :: p in players && p !in games[g].roster ==> next[p] == players[p]
    requires forall p :: p in games[g].roster ==> next[p].gameId == g && IsCard(next[p].card)
    ensures forall p :: p in next ==>
              next[p].gameId in after && p in after[next[p].gameId].roster && IsCard(next[p].card)
  {
    forall p | p in next && p !in games[g].roster ensures next[p] == players[p] {
    }
  }

  /** ... and every VS game still keeps its cells exclusive. */
  lemma ExclusiveAfterUpdate(games: map<GameId, Game>, players: map<PlayerId, Player>,
                             next: map<PlayerId, Player>, g: GameId, after: map<GameId, Game>)
    requires WellFormed(games, players) && g in games && after.Keys == games.Keys
    requires forall h :: h in games && h != g ==> after[h] == games[h]
    requires after[g].roster == games[g].roster
    requires next.Keys == players.Keys
    requires forall p :: p in players && p !in games[g].roster ==> next[p] == players[p]
    requires forall p :: p in games[g].roster ==> next[p].gameId == g
    requires after[g].mode == VS ==> Exclusive(Lists(next, after[g].roster))
    ensures forall h :: h in after && after[h].mode == VS ==> Exclusive(Lists(next, after[h].roster))
  {
    forall h | h in after && after[h].mode == VS ensures Exclusive(Lists(next, after[h].roster)) {
      if h != g {
        OtherGameUntouched(games, players, next, g, h);
      }
    }
  }

  /** The stamp lists of another game are those of before. */
  lemma OtherGameUntouched(games: map<GameId, Game>, players: map<PlayerId, Player>,
                           next: map<PlayerId, Player>, g: GameId, h: GameId)
    requires WellFormed(games, players) && g in games && h in games && h != g
    requires next.Keys == players.Keys
    requires forall p :: p in players && p !in games[g].roster ==> next[p] == players[p]
    ensures forall p :: p in games[h].roster ==> p in next && next[p] == players[p]
    ensures RosterIn(next, games[h].roster) && Lists(next, games[h].roster) == Lists(players, games[h].roster)
  {
    forall p | p in games[h].roster ensures p !in games[g].roster {
    }
  }

  /** The stamp lists after one roster member's list changed. */
  lemma ListsAfterUpdate(players: map<PlayerId, Player>, roster: seq<PlayerId>, me: nat, player: Player)
    requires RosterIn(players, roster) && NoDup(roster) && me < |roster|
    ensures Lists(players[roster[me] := player], roster) == Lists(players, roster)[me := player.stamps]
  {
  }

  function StampCounts(players: map<PlayerId, Player>, roster: seq<PlayerId>): (entries: seq<(string, nat)>)
    requires RosterIn(players, roster)
    ensures |entries| == |roster|
  {
    seq(|roster|, i requires 0 <= i < |roster| => (players[roster[i]].name, |players[roster[i]].stamps|))
  }

  /** `updatedPlayers.reduce((sum, p) => sum + p.stampedSquares.length, 0)`. */
  function TotalStamped(entries: seq<(string, nat)>): nat {
    if entries == [] then 0 else entries[0].1 + TotalStamped(entries[1..])
  }

  // ---------------------------------------------------------------- most_squares

  /** The `w`-th player has more stamps than anybody else, and some. */
  predicate Leader(entries: seq<(string, nat)>, w: int) {
    0 <= w < |entries| && entries[w].1 > 0 &&
    forall j :: 0 <= j < |entries| && j != w ==> entries[j].1 < entries[w].1
  }

  lemma LeaderUnique(entries: seq<(string, nat)>, v: int, w: int)
    requires Leader(entries, v) && Leader(entries, w)
    ensures v == w
  {
  }

  /** The player `most_squares` names: the unique leader, when that
      player's name is not empty. */
  ghost function Winner(entries: seq<(string, nat)>): Option<string> {
    if exists w :: Leader(entries, w) && entries[w].0 != "" then
      var w :| Leader(entries, w) && entries[w].0 != "";
      Some(entries[w].0)
    else None
  }

  /** `Winner` names exactly the name of any leader. */
  lemma WinnerIsLeader(entries: seq<(string, nat)>, w: int)
    requires Leader(entries, w)
    ensures Winner(entries) == if entries[w].0 != "" then Some(entries[w].0) else None
  {
    if exists v :: Leader(entries, v) && entries[v].0 != "" {
      var v :| Leader(entries, v) && entries[v].0 != "";
      LeaderUnique(entries, v, w);
    }
  }

  /** The `most_squares` pass over the players: the largest count so far,
      who first reached it, and whether somebody else matched it. A winner
      is named only when the holder is unique and has a non-empty name (the
      source tests the name for truthiness). */
  method MostSquares(entries: seq<(string, nat)>) returns (winner: Option<string>)
    ensures winner == Winner(entries)
  {
    var maxStamps := 0;
    var best: Option<string> := None;
    var isTie := false;
    ghost var w := -1;
    for i := 0 to |entries|
      invariant -1 <= w < i || (w == -1 && i == 0)
      invariant w == -1 <==> maxStamps == 0
      invariant w == -1 ==> best == None && (isTie <==> i > 0)
      invariant w >= 0 ==> entries[w].1 == maxStamps && best == Some(entries[w].0)
      invariant w >= 0 ==> forall j :: 0 <= j < w ==> entries[j].1 < maxStamps
      invariant w >= 0 ==> (isTie <==> exists j :: w < j < i && entries[j].1 == maxStamps)
      invariant forall j :: 0 <= j < i ==> entries[j].1 <= maxStamps
    {
      var count := entries[i].1;
      if count > maxStamps {
        maxStamps := count;
        best := Some(entries[i].0);
        isTie := false;
        w := i;
      } else if count == maxStamps {
        isTie := true;
      }
    }
    winner := if best.Some? && best.value != "" && !isTie then best else None;
    forall v | Leader(entries, v) ensures v == w && !isTie {
      assert entries[v].1 <= maxStamps;
    }
    if winner.Some? {
      assert Leader(entries, w);
      WinnerIsLeader(entries, w);
    } else if w >= 0 && Leader(entries, w) {
      WinnerIsLeader(entries, w);
    }
  }

  // ---------------------------------------------------------------- helpers for the handlers

  function EndWith(game: Game, name: string): Game {
    game.(status := Ended, winner := Some(name))
  }

  /** `card[r][c].stamped = !card[r][c].stamped`. */
  function Flip(card: Card, p: Pos): (r: Card)
    requires IsCard(card) && InRange(p)
    ensures IsCard(r) && At(r, p).stamped == !At(card, p).stamped && At(r, p).item == At(card, p).item
    ensures forall q :: InRange(q) && q != p ==> At(r, q) == At(card, q)
  {
    Put(card, p, At(card, p).(stamped := !At(card, p).stamped))
  }

  /** `card[r][c].stamped = false`. */
  function Unmark(card: Card, p: Pos): (r: Card)
    requires IsCard(card) && InRange(p)
    ensures IsCard(r) && !At(r, p).stamped && At(r, p).item == At(card, p).item
    ensures forall q :: InRange(q) && q != p ==> At(r, q) == At(card, q)
  {
    Put(card, p, At(card, p).(stamped := false))
  }

  /** The players of `roster` after a VS reroll: everyone gets the new shared
      card and loses the stamps at the rerolled positions. */
  function AfterSharedReroll(players: map<PlayerId, Player>, roster: seq<PlayerId>, card: Card,
                             positions: seq<RawPos>): map<PlayerId, Player>
  {
    map p | p in players :: if p in roster then players[p].(card := card, stamps := Purge(players[p].stamps, positions))
                            else players[p]
  }

  /** The players of `roster` after a VS `new_game`: the new shared card and no stamps. */
  function AfterSharedDeal(players: map<PlayerId, Player>, roster: seq<PlayerId>, card: Card): map<PlayerId, Player> {
    map p | p in players :: if p in roster then players[p].(card := card, stamps := []) else players[p]
  }

  /** The players of `roster` after a regular `new_game`: the i-th gets `cards[i]`. */
  function AfterDeal(players: map<PlayerId, Player>, roster: seq<PlayerId>, cards: seq<Card>): map<PlayerId, Player>
    requires |cards| >= |roster|
  {
    map p | p in players :: if p in roster then players[p].(card := cards[IndexOf(roster, p)]) else players[p]
  }

  /** The effect of one handler: the new records and what was broadcast. */
  datatype Outcome = Outcome(games: map<GameId, Game>, players: map<PlayerId, Player>, events: seq<Event>)

  /** The VS branch of `stamp`: the exclusive toggle (a blocked request
      changes nothing and broadcasts nothing), the new stamps are stored, then
      the older check of server.js runs the line rules on them and, when it
      does not throw, `most_squares` is tried once 25 stamps are down. */
  ghost function StampVsOutcome(games: map<GameId, Game>, players: map<PlayerId, Player>,
                                gameId: GameId, playerId: PlayerId, r: Num, c: Num): Outcome
    requires WellFormed(games, players) && playerId in players && players[playerId].gameId == gameId
  {
    var game := games[gameId];
    var player := players[playerId];
    var t := Toggle(Lists(players, game.roster), IndexOf(game.roster, playerId), r, c, player.color);
    if t.None? then Outcome(games, players, [])
    else VsAfterCheck(games, players[playerId := player.(stamps := t.value)], gameId, player.name,
                      LegacyCheckWin(StampList(t.value), game.rules))
  }

  /** The VS branch of `stamp` as it was evidently meant: the line rules are
      decided by the hardened detector, which never throws. */
  ghost function StampVsCorrectedOutcome(games: map<GameId, Game>, players: map<PlayerId, Player>,
                                         gameId: GameId, playerId: PlayerId, r: Num, c: Num): Outcome
    requires WellFormed(games, players) && playerId in players && players[playerId].gameId == gameId
  {
    var game := games[gameId];
    var player := players[playerId];
    var t := Toggle(Lists(players, game.roster), IndexOf(game.roster, playerId), r, c, player.color);
    if t.None? then Outcome(games, players, [])
    else VsSettle(games, players[playerId := player.(stamps := t.value)], gameId, player.name,
                  VsWins(t.value, game.rules))
  }

  /** After the new stamps were stored: a throwing check (`None`) leaves the
      stored stamps and broadcasts nothing; otherwise its verdict settles the game. */
  ghost function VsAfterCheck(games: map<GameId, Game>, players: map<PlayerId, Player>, gameId: GameId,
                              name: string, verdict: Option<bool>): Outcome
    requires gameId in games && RosterIn(players, games[gameId].roster)
  {
    match verdict
    case None => Outcome(games, players, [])
    case Some(won) => VsSettle(games, players, gameId, name, won)
  }

  /** The win tests after a VS stamp request went through: `players`
      already holds the player's new stamps, and `won` says whether they
      meet one of the line rules. */
  ghost function VsSettle(games: map<GameId, Game>, players: map<PlayerId, Player>, gameId: GameId,
                          name: string, won: bool): Outcome
    requires gameId in games && RosterIn(players, games[gameId].roster)
  {
    if won then Declared(games, players, gameId, name) else MostSquaresOutcome(games, players, gameId)
  }

  /** `most_squares`: once the players of the game hold 25 stamps between
      them, a unique leader with a non-empty name wins. */
  ghost function MostSquaresOutcome(games: map<GameId, Game>, players: map<PlayerId, Player>, gameId: GameId): Outcome
    requires gameId in games && RosterIn(players, games[gameId].roster)
  {
    var game := games[gameId];
    var entries := StampCounts(players, game.roster);
    var winner := Winner(entries);
    if "most_squares" in game.rules && TotalStamped(entries) == 25 && winner.Some? then
      Declared(games, players, gameId, winner.value)
    else Quiet(games, players, gameId)
  }

  /** A VS toggle that went through keeps the records well formed, and the
      win tests then run on the updated records. */
  lemma StampVsStep(games: map<GameId, Game>, players: map<PlayerId, Player>,
                    gameId: GameId, playerId: PlayerId, r: Num, c: Num, stamps: seq<Stamp>)
    requires WellFormed(games, players) && playerId in players && players[playerId].gameId == gameId
    requires games[gameId].mode == VS
    requires Toggle(Lists(players, games[gameId].roster), IndexOf(games[gameId].roster, playerId),
                    r, c, players[playerId].color) == Some(stamps)
    ensures var next := players[playerId := players[playerId].(stamps := stamps)];
            WellFormed(games, next) &&
            StampVsOutcome(games, players, gameId, playerId, r, c) ==
              VsAfterCheck(games, next, gameId, players[playerId].name,
                           LegacyCheckWin(StampList(stamps), games[gameId].rules))
  {
    var player := players[playerId];
    var roster := games[gameId].roster;
    var me := IndexOf(roster, playerId);
    var lists := Lists(players, roster);
    var updated := player.(stamps := stamps);
    ToggleKeepsExclusive(lists, me, r, c, player.color);
    ListsAfterUpdate(players, roster, me, updated);
    UpdateOnePlayer(games, players, playerId, updated);
  }

  /** A blocked toggle changes nothing and broadcasts nothing. */
  lemma StampVsBlocked(games: map<GameId, Game>, players: map<PlayerId, Player>,
                       gameId: GameId, playerId: PlayerId, r: Num, c: Num)
    requires WellFormed(games, players) && playerId in players && players[playerId].gameId == gameId
    requires Toggle(Lists(players, games[gameId].roster), IndexOf(games[gameId].roster, playerId),
                    r, c, players[playerId].color).None?
    ensures StampVsOutcome(games, players, gameId, playerId, r, c) == Outcome(games, players, [])
  {
  }

  /** The handler as written and the corrected one differ exactly where the
      older check throws: they agree on every non-empty list of on-board-row
      stamps; on an empty list or one with an off-board or `NaN` row the
      handler keeps the stored stamps and broadcasts nothing, where the
      corrected one always broadcasts the new state. */
  lemma StampVsCorrection(games: map<GameId, Game>, players: map<PlayerId, Player>,
                          gameId: GameId, playerId: PlayerId, r: Num, c: Num)
    requires WellFormed(games, players) && playerId in players && players[playerId].gameId == gameId
    requires games[gameId].mode == VS
    ensures var player := players[playerId];
            var t := Toggle(Lists(players, games[gameId].roster), IndexOf(games[gameId].roster, playerId),
                            r, c, player.color);
            var written := StampVsOutcome(games, players, gameId, playerId, r, c);
            var corrected := StampVsCorrectedOutcome(games, players, gameId, playerId, r, c);
            (t.None? ==> written == corrected == Outcome(games, players, [])) &&
            (t.Some? && |t.value| > 0 && StampsWritable(t.value) ==> written == corrected) &&
            (t.Some? && !(|t.value| > 0 && StampsWritable(t.value)) ==>
               written == Outcome(games, players[playerId := player.(stamps := t.value)], []) &&
               |corrected.events| > 0 && corrected.events[|corrected.events| - 1] == UpdateState(gameId))
  {
    var player := players[playerId];
    var t := Toggle(Lists(players, games[gameId].roster), IndexOf(games[gameId].roster, playerId),
                    r, c, player.color);
    if t.Some? {
      var next := players[playerId := player.(stamps := t.value)];
      if |t.value| > 0 && StampsWritable(t.value) {
        LegacyAgreesOnStamps(t.value, games[gameId].rules);
      } else {
        assert LegacyCheckWin(StampList(t.value), games[gameId].rules).None?;
        assert RosterIn(next, games[gameId].roster) by {
          StampVsStep(games, players, gameId, playerId, r, c, t.value);
        }
        SettleBroadcasts(games, next, gameId, player.name, VsWins(t.value, games[gameId].rules));
      }
    }
  }

  /** Every settled VS request ends by broadcasting the new state. */
  lemma SettleBroadcasts(games: map<GameId, Game>, players: map<PlayerId, Player>, gameId: GameId,
                         name: string, won: bool)
    requires gameId in games && RosterIn(players, games[gameId].roster)
    ensures var out := VsSettle(games, players, gameId, name, won);
            |out.events| > 0 && out.events[|out.events| - 1] == UpdateState(gameId)
  {
  }

  /** The regular branch of `stamp`: an off-card coordinate throws before
      anything is written; otherwise the tile flips, and the game ends only
      when the tile became stamped and the card wins. */
  ghost function StampCardOutcome(games: map<GameId, Game>, players: map<PlayerId, Player>,
                                  gameId: GameId, playerId: PlayerId, r: Num, c: Num): Outcome
    requires WellFormed(games, players) && playerId in players && players[playerId].gameId == gameId
  {
    var game := games[gameId];
    var player := players[playerId];
    if !(OnCard(r) && OnCard(c)) then Outcome(games, players, [])
    else
      var card := Flip(player.card, (r.i, c.i));
      CardSettle(games, players[playerId := player.(card := card)], gameId, player.name,
                 !At(player.card, (r.i, c.i)).stamped && LegacyCheckWin(CardArg(card), game.rules) == Some(true))
  }

  /** After the tile flipped: the game ends when `won`, otherwise only the
      new state is broadcast. */
  function CardSettle(games: map<GameId, Game>, players: map<PlayerId, Player>, gameId: GameId,
                      name: string, won: bool): Outcome
    requires gameId in games
  {
    if won then Declared(games, players, gameId, name) else Quiet(games, players, gameId)
  }

  /** The game ends with `name` as its winner; `win` and the new state are broadcast. */
  function Declared(games: map<GameId, Game>, players: map<PlayerId, Player>, gameId: GameId, name: string): Outcome
    requires gameId in games
  {
    Outcome(games[gameId := EndWith(games[gameId], name)], players, [Win(gameId, name), UpdateState(gameId)])
  }

  /** Only the new state is broadcast. */
  function Quiet(games: map<GameId, Game>, players: map<PlayerId, Player>, gameId: GameId): Outcome {
    Outcome(games, players, [UpdateState(gameId)])
  }

  /** A flip on the card keeps the records well formed, and the win test then
      runs on the updated records. */
  lemma StampCardStep(games: map<GameId, Game>, players: map<PlayerId, Player>,
                      gameId: GameId, playerId: PlayerId, r: Num, c: Num)
    requires WellFormed(games, players) && playerId in players && players[playerId].gameId == gameId
    requires games[gameId].mode == Regular && OnCard(r) && OnCard(c)
    ensures var player := players[playerId];
            var card := Flip(player.card, (r.i, c.i));
            var next := players[playerId := player.(card := card)];
            WellFormed(games, next) &&
            StampCardOutcome(games, players, gameId, playerId, r, c) ==
              CardSettle(games, next, gameId, player.name,
                         !At(player.card, (r.i, c.i)).stamped && LegacyCheckWin(CardArg(card), games[gameId].rules) == Some(true))
  {
    var player := players[playerId];
    UpdateOnePlayer(games, players, playerId, player.(card := Flip(player.card, (r.i, c.i))));
  }

  // ---------------------------------------------------------------- reroll, new_game and the vote on the records

  /** A VS reroll: the game gets the new shared card, and every player of it
      the same card and their stamps without those on the named positions. */
  lemma SharedRerollKeepsWellFormed(games: map<GameId, Game>, players: map<PlayerId, Player>, g: GameId,
                                    card: Card, positions: seq<RawPos>)
    requires WellFormed(games, players) && g in games && games[g].mode == VS && IsCard(card)
    ensures WellFormed(games[g := games[g].(sharedCard := card)], AfterSharedReroll(players, games[g].roster, card, positions))
  {
    var roster := games[g].roster;
    var next := AfterSharedReroll(players, roster, card, positions);
    assert next.Keys == players.Keys;
    var before, after := Lists(players, roster), Lists(next, roster);
    forall i | 0 <= i < |roster| ensures IsSubsequence(after[i], before[i]) {
      assert after[i] == Purge(before[i], positions);
    }
    ShrinkKeepsExclusive(before, after);
    UpdatePlayersOfGame(games, players, next, g, games[g].(sharedCard := card));
  }

  /** What a VS reroll leaves: all players of the game share the new card and
      none keeps a stamp on a position the handler recomputed, while the
      stamps elsewhere stay as they were. */
  lemma SharedRerollEffect(players: map<PlayerId, Player>, roster: seq<PlayerId>, card: Card,
                           positions: seq<RawPos>, p: PlayerId)
    requires p in players && p in roster
    ensures var after := AfterSharedReroll(players, roster, card, positions)[p];
            after.card == card &&
            forall s :: s in after.stamps <==> s in players[p].stamps && !AtAny(s, positions)
  {
  }

  /** A VS `new_game`: the game restarts with the new shared card, which every
      player of it gets, with no stamps. */
  lemma SharedDealKeepsWellFormed(games: map<GameId, Game>, players: map<PlayerId, Player>, g: GameId, card: Card)
    requires WellFormed(games, players) && g in games && games[g].mode == VS && IsCard(card)
    ensures WellFormed(games[g := Restart(games[g]).(sharedCard := card)], AfterSharedDeal(players, games[g].roster, card))
  {
    var roster := games[g].roster;
    var next := AfterSharedDeal(players, roster, card);
    assert next.Keys == players.Keys;
    var after := Lists(next, roster);
    assert forall i :: 0 <= i < |after| ==> after[i] == [];
    UpdatePlayersOfGame(games, players, next, g, Restart(games[g]).(sharedCard := card));
  }

  /** `status: 'active', winner: null`. */
  function Restart(game: Game): (r: Game)
    ensures r.status == Active && r.winner == None
    ensures r.mode == game.mode && r.rules == game.rules && r.sharedCard == game.sharedCard && r.roster == game.roster
  {
    game.(status := Active, winner := None)
  }

  /** The regular `new_game` round of server.js 566-587 on a stream of shuffles
      standing for the calls to `generateCard`: a card already handed out in
      this round is drawn again; `None` when the stream runs out first. */
  function DealFrom(draws: seq<seq<string>>, n: nat, used: seq<Card>): (r: Option<seq<Card>>)
    ensures r.Some? ==> |r.value| == |used| + n && r.value[..|used|] == used
    decreases |draws|
  {
    if n == 0 then Some(used)
    else if draws == [] then None
    else
      var card := GenerateCard(draws[0]);
      if card in used then DealFrom(draws[1..], n, used) else DealFrom(draws[1..], n - 1, used + [card])
  }

  /** A 5x5 card with no tile marked: what `generateCard` deals. */
  predicate Fresh(card: Card) {
    IsCard(card) && forall r, c :: 0 <= r < 5 && 0 <= c < 5 ==> !card[r][c].stamped
  }

  /** Every shuffle holds at least the 25 prompts a card needs. */
  predicate Full(draws: seq<seq<string>>) {
    forall j :: 0 <= j < |draws| ==> |draws[j]| >= 25
  }

  lemma DealtCardIsFresh(shuffled: seq<string>)
    requires |shuffled| >= 25
    ensures Fresh(GenerateCard(shuffled))
  {
    GenerateCardDeals(shuffled);
  }

  /** The round hands out `n` new cards after the ones already used, no two
      alike, each a fresh card when the shuffles are full. */
  lemma {:induction false} DealFromDeals(draws: seq<seq<string>>, n: nat, used: seq<Card>)
    requires NoDup(used) && DealFrom(draws, n, used).Some?
    ensures var cards := DealFrom(draws, n, used).value;
            NoDup(cards) && (Full(draws) ==> forall k :: |used| <= k < |cards| ==> Fresh(cards[k]))
    decreases |draws|
  {
    if n != 0 {
      var card := GenerateCard(draws[0]);
      var cards := DealFrom(draws, n, used).value;
      assert Full(draws) ==> Full(draws[1..]) by {
        if Full(draws) {
          forall j | 0 <= j < |draws[1..]| ensures |draws[1..][j]| >= 25 {
            assert draws[1..][j] == draws[j + 1];
          }
        }
      }
      if card in used {
        DealFromDeals(draws[1..], n, used);
      } else {
        var used' := used + [card];
        assert NoDup(used') by {
          forall a, b | 0 <= a < b < |used'| ensures used'[a] != used'[b] {
            if b == |used| {
              assert used'[a] == used[a] && used[a] in used;
            }
          }
        }
        DealFromDeals(draws[1..], n - 1, used');
        assert cards[..|used'|] == used';
        if Full(draws) {
          DealtCardIsFresh(draws[0]);
          assert cards[|used|] == card;
        }
      }
    }
  }

  /** `IndexOf` on a prefix of the roster. */
  lemma IndexOfPrefix(roster: seq<PlayerId>, i: nat, p: PlayerId)
    requires i <= |roster| && p in roster[..i]
    ensures IndexOf(roster[..i], p) == IndexOf(roster, p)
  {
    var k := IndexOf(roster[..i], p);
    assert roster[k] == p;
    assert forall j :: 0 <= j < k ==> roster[j] == roster[..i][j];
  }

  /** A regular `new_game` hands the players of the game pairwise distinct
      cards and touches nobody else. */
  lemma DealGivesDistinctCards(players: map<PlayerId, Player>, roster: seq<PlayerId>, draws: seq<seq<string>>)
    requires NoDup(roster) && RosterIn(players, roster) && DealFrom(draws, |roster|, []).Some?
    ensures var after := AfterDeal(players, roster, DealFrom(draws, |roster|, []).value);
            after.Keys == players.Keys &&
            (forall p, q :: p in roster && q in roster && p != q ==> after[p].card != after[q].card) &&
            (forall p :: p in players && p !in roster ==> after[p] == players[p])
  {
    var cards := DealFrom(draws, |roster|, []).value;
    DealFromDeals(draws, |roster|, []);
    var after := AfterDeal(players, roster, cards);
    forall p, q | p in roster && q in roster && p != q ensures after[p].card != after[q].card {
      var a, b := IndexOf(roster, p), IndexOf(roster, q);
      assert after[p].card == cards[a] && after[q].card == cards[b];
      if a < b { assert cards[a] != cards[b]; } else { assert cards[b] != cards[a]; }
    }
  }

  /** ... and each of those cards is a fresh 5x5 card. */
  lemma DealGivesFreshCards(players: map<PlayerId, Player>, roster: seq<PlayerId>, draws: seq<seq<string>>)
    requires RosterIn(players, roster) && Full(draws) && DealFrom(draws, |roster|, []).Some?
    ensures var after := AfterDeal(players, roster, DealFrom(draws, |roster|, []).value);
            forall p :: p in roster ==> Fresh(after[p].card)
  {
    var cards := DealFrom(draws, |roster|, []).value;
    DealFromDeals(draws, |roster|, []);
    var after := AfterDeal(players, roster, cards);
    forall p | p in roster ensures Fresh(after[p].card) {
      assert after[p].card == cards[IndexOf(roster, p)];
    }
  }

  /** A regular `new_game` keeps the records well formed when every shuffle
      holds the 25 prompts it needs. */
  lemma DealKeepsWellFormed(games: map<GameId, Game>, players: map<PlayerId, Player>, g: GameId,
                            draws: seq<seq<string>>)
    requires WellFormed(games, players) && g in games && games[g].mode == Regular
    requires Full(draws) && DealFrom(draws, |games[g].roster|, []).Some?
    ensures WellFormed(games[g := Restart(games[g])],
                       AfterDeal(players, games[g].roster, DealFrom(draws, |games[g].roster|, []).value))
  {
    var roster := games[g].roster;
    var next := AfterDeal(players, roster, DealFrom(draws, |roster|, []).value);
    DealGivesDistinctCards(players, roster, draws);
    DealGivesFreshCards(players, roster, draws);
    UpdatePlayersOfGame(games, players, next, g, Restart(games[g]));
  }

  /** The follow-up of a passed vote (server.js 668-702): the flagged cell of
      the target is cleared, their stamps on it in VS mode or the tile's mark
      on a regular card. Nothing happens when the game or the target is gone,
      and in regular mode an off-card cell throws before anything is written. */
  function Uphold(games: map<GameId, Game>, players: map<PlayerId, Player>, gameId: GameId, v: VoteState): (out: Outcome)
    requires WellFormed(games, players)
    ensures out.games == games && out.players.Keys == players.Keys
    ensures forall p :: p in out.players ==> IsCard(out.players[p].card)
    ensures forall p :: p in players && p != v.targetPlayerId ==> out.players[p] == players[p]
    ensures out.players != players ==> gameId in games && v.targetPlayerId in games[gameId].roster
    ensures out.events == [] || out.events == [UpdateState(gameId)]
    ensures gameId in games && v.targetPlayerId in games[gameId].roster && games[gameId].mode == VS ==>
              out.events == [UpdateState(gameId)] && !Holds(out.players[v.targetPlayerId].stamps, v.row, v.col)
    ensures gameId in games && v.targetPlayerId in games[gameId].roster && games[gameId].mode == Regular ==>
              (OnCard(v.row) && OnCard(v.col) <==> out.events == [UpdateState(gameId)]) &&
              (OnCard(v.row) && OnCard(v.col) ==> !At(out.players[v.targetPlayerId].card, (v.row.i, v.col.i)).stamped)
  {
    if gameId !in games || v.targetPlayerId !in games[gameId].roster then Outcome(games, players, [])
    else
      var target := players[v.targetPlayerId];
      if games[gameId].mode == VS then
        var left := ClearCell(target.stamps, v.row, v.col);
        Outcome(games, players[v.targetPlayerId := target.(stamps := left)], [UpdateState(gameId)])
      else if OnCard(v.row) && OnCard(v.col) then
        Outcome(games, players[v.targetPlayerId := target.(card := Unmark(target.card, (v.row.i, v.col.i)))],
                [UpdateState(gameId)])
      else Outcome(games, players, [])
  }

  lemma UpholdKeepsWellFormed(games: map<GameId, Game>, players: map<PlayerId, Player>, gameId: GameId, v: VoteState)
    requires WellFormed(games, players)
    ensures WellFormed(games, Uphold(games, players, gameId, v).players)
  {
    if gameId in games && v.targetPlayerId in games[gameId].roster {
      var pid := v.targetPlayerId;
      var target := players[pid];
      var roster := games[gameId].roster;
      if games[gameId].mode == VS {
        var updated := target.(stamps := ClearCell(target.stamps, v.row, v.col));
        var me := IndexOf(roster, pid);
        ListsAfterUpdate(players, roster, me, updated);
        var before := Lists(players, roster);
        forall i | 0 <= i < |before| ensures IsSubsequence(before[me := updated.stamps][i], before[i]) {
          SubsequenceOfItself(before[i]);
        }
        ShrinkKeepsExclusive(before, before[me := updated.stamps]);
        UpdateOnePlayer(games, players, pid, updated);
      } else if OnCard(v.row) && OnCard(v.col) {
        UpdateOnePlayer(games, players, pid, target.(card := Unmark(target.card, (v.row.i, v.col.i))));
      }
    }
  }

  /** The regular `new_game` deal on the records: the i-th player of the
      roster gets the i-th card of the round. */
  lemma AfterDealStep(players: map<PlayerId, Player>, roster: seq<PlayerId>, i: nat, used: seq<Card>, card: Card)
    requires NoDup(roster) && RosterIn(players, roster) && i < |roster| && |used| == i
    ensures AfterDeal(players, roster[..i + 1], used + [card]) ==
            AfterDeal(players, roster[..i], used)[roster[i] := players[roster[i]].(card := card)]
  {
    var before, after := AfterDeal(players, roster[..i], used), AfterDeal(players, roster[..i + 1], used + [card]);
    forall p | p in players
      ensures after[p] == before[roster[i] := players[roster[i]].(card := card)][p]
    {
      if p == roster[i] {
        IndexOfPrefix(roster, i + 1, p);
        assert IndexOf(roster, p) == i;
      } else if p in roster[..i] {
        IndexOfPrefix(roster, i + 1, p);
        IndexOfPrefix(roster, i, p);
        assert p in roster[..i + 1];
      } else {
        assert p !in roster[..i + 1];
      }
    }
  }

  /** The game a VS reroll leaves: some outcome of `rerollCard` on the shared
      card is the new shared card, every player of the game holds it, and
      their stamps on the positions the handler recomputed are gone. */
  ghost predicate SharedRerolled(games: map<GameId, Game>, players: map<PlayerId, Player>, gameId: GameId,
                                 kind: string, arg: string, items: seq<string>,
                                 games': map<GameId, Game>, players': map<PlayerId, Player>)
    requires gameId in games && IsCard(games[gameId].sharedCard)
  {
    exists card, positions, replaced ::
      RerollOutcome(games[gameId].sharedCard, kind, arg, items, card, positions, replaced) &&
      games' == games[gameId := games[gameId].(sharedCard := card)] &&
      players' == AfterSharedReroll(players, games[gameId].roster, card, RerolledPositions(kind, arg))
  }

  /** The records a regular reroll leaves: the target's card is some outcome
      of `rerollCard` on it, and nothing else changed. */
  ghost predicate OwnRerolled(players: map<PlayerId, Player>, pid: PlayerId, kind: string, arg: string,
                              items: seq<string>, players': map<PlayerId, Player>)
    requires pid in players && IsCard(players[pid].card)
  {
    exists card, positions, replaced ::
      RerollOutcome(players[pid].card, kind, arg, items, card, positions, replaced) &&
      players' == players[pid := players[pid].(card := card)]
  }

  /** Every flag allowance stays between none and the initial two. */
  predicate Allowances(flagsLeft: map<PlayerId, int>) {
    forall p :: p in flagsLeft ==> 0 <= flagsLeft[p] <= InitialFlags
  }

  /** Every running vote counts its snapshot of voters as its players. */
  predicate Tallies(votesByGame: map<GameId, VoteState>) {
    forall g :: g in votesByGame ==> votesByGame[g].totalPlayers == |votesByGame[g].votes|
  }

  /** The `do ... while (usedCards.includes(...))` of the regular
      `new_game`: shuffles are drawn from position `k` on until one deals a
      card not yet used in the round. */
  method DrawUnused(draws: seq<seq<string>>, k: nat, used: seq<Card>, n: nat) returns (card: Card, k': nat)
    requires k <= |draws| && n > 0 && DealFrom(draws[k..], n, used).Some?
    ensures k < k' <= |draws| && card == GenerateCard(draws[k' - 1]) && card !in used
    ensures DealFrom(draws[k'..], n - 1, used + [card]) == DealFrom(draws[k..], n, used)
  {
    k' := k;
    assert draws[k'..] != [];
    card := GenerateCard(draws[k']);
    k' := k' + 1;
    while card in used
      invariant k < k' <= |draws| && card == GenerateCard(draws[k' - 1])
      invariant DealFrom(draws[k' - 1..], n, used) == DealFrom(draws[k..], n, used)
      decreases |draws| - k'
    {
      assert draws[k' - 1..][1..] == draws[k'..];
      card := GenerateCard(draws[k']);
      k' := k' + 1;
    }
    assert draws[k' - 1..][1..] == draws[k'..];
  }

  // ---------------------------------------------------------------- the server

  class Server {
    /** `itemsList` from items.json. */
    const items: seq<string>
    var games: map<GameId, Game>
    var players: map<PlayerId, Player>
    /** `flagsLeft`: playerId -> remaining flags. */
    var flagsLeft: map<PlayerId, int>
    /** `votesByGame`: gameId -> the active vote. */
    var votesByGame: map<GameId, VoteState>
    ghost var log: seq<Event>

    ghost predicate Valid()
      reads this
    {
      |items| >= 25 && WellFormed(games, players) && Allowances(flagsLeft) && Tallies(votesByGame)
    }

    constructor (items: seq<string>, games: map<GameId, Game>, players: map<PlayerId, Player>)
      requires |items| >= 25 && WellFormed(games, players)
      ensures Valid()
      ensures this.items == items && this.games == games && this.players == players
      ensures flagsLeft == map[] && votesByGame == map[] && log == []
    {
      this.items := items;
      this.games := games;
      this.players := players;
      flagsLeft := map[];
      votesByGame := map[];
      log := [];
    }

    /** `join_room`: a player's flag allowance is set once, to 2. */
    method JoinRoom(gameId: GameId, playerId: PlayerId)
      requires Valid()
      modifies this
      ensures Valid()
      ensures flagsLeft == if playerId in old(flagsLeft) then old(flagsLeft) else old(flagsLeft)[playerId := InitialFlags]
      ensures games == old(games) && players == old(players) && votesByGame == old(votesByGame)
      ensures log == old(log) + if gameId in games then [UpdateState(gameId)] else []
    {
      if playerId !in flagsLeft {
        flagsLeft := flagsLeft[playerId := InitialFlags];
      }
      if gameId in games {
        log := log + [UpdateState(gameId)];
      }
    }

    /** The guard at the head of `stamp`. */
    predicate MayStamp(gameId: GameId, playerId: PlayerId)
      reads this
    {
      playerId in players && players[playerId].gameId == gameId &&
      gameId in games && games[gameId].status != Ended
    }

    /** `stamp` with the raw `row` and `col` (the strings `parseInt` reads). */
    method Stamp(gameId: GameId, playerId: PlayerId, row: string, col: string)
      requires Valid()
      modifies this
      ensures Valid()
      ensures flagsLeft == old(flagsLeft) && votesByGame == old(votesByGame)
      // nothing happens for an unknown player, a player of another game, or an ended game
      ensures !old(MayStamp(gameId, playerId)) ==>
                games == old(games) && players == old(players) && log == old(log)
      ensures old(MayStamp(gameId, playerId)) ==>
                var out := if old(games[gameId].mode) == VS
                  then StampVsOutcome(old(games), old(players), gameId, playerId, ParseInt(row), ParseInt(col))
                  else StampCardOutcome(old(games), old(players), gameId, playerId, ParseInt(row), ParseInt(col));
                games == out.games && players == out.players && log == old(log) + out.events
    {
      if !MayStamp(gameId, playerId) {
        return;
      }
      if games[gameId].mode == VS {
        StampVs(gameId, playerId, ParseInt(row), ParseInt(col));
      } else {
        StampCard(gameId, playerId, ParseInt(row), ParseInt(col));
      }
    }

    /** The VS branch of `stamp`. */
    method StampVs(gameId: GameId, playerId: PlayerId, r: Num, c: Num)
      requires Valid() && MayStamp(gameId, playerId) && games[gameId].mode == VS
      modifies this
      ensures Valid()
      ensures flagsLeft == old(flagsLeft) && votesByGame == old(votesByGame)
      ensures var out := StampVsOutcome(old(games), old(players), gameId, playerId, r, c);
              games == out.games && players == out.players && log == old(log) + out.events
    {
      var player := players[playerId];
      var roster := games[gameId].roster;
      var t := Toggle(Lists(players, roster), IndexOf(roster, playerId), r, c, player.color);
      if t.None? {
        StampVsBlocked(games, players, gameId, playerId, r, c);
        return;
      }
      StampVsStep(games, players, gameId, playerId, r, c, t.value);
      var verdict := LegacyCheckWin(StampList(t.value), games[gameId].rules);
      if verdict.None? {
        // the check throws after the update was written: no broadcast
        players := players[playerId := player.(stamps := t.value)];
        return;
      }
      Settle(gameId, playerId, t.value, verdict.value);
    }

    /** Storing a VS player's new stamps, then the win tests of the VS
        branch of `stamp` on the stored records, given the verdict of the
        line rules. */
    method Settle(gameId: GameId, playerId: PlayerId, stamps: seq<Stamp>, won: bool)
      requires Valid() && playerId in players && players[playerId].gameId == gameId
      requires WellFormed(games, players[playerId := players[playerId].(stamps := stamps)])
      modifies this
      ensures Valid()
      ensures flagsLeft == old(flagsLeft) && votesByGame == old(votesByGame)
      ensures players == old(players)[playerId := old(players[playerId]).(stamps := stamps)]
      ensures var out := VsSettle(old(games), players, gameId, old(players[playerId]).name, won);
              games == out.games && log == old(log) + out.events
    {
      var name := players[playerId].name;
      players := players[playerId := players[playerId].(stamps := stamps)];
      if won {
        DeclareWinner(gameId, name);
      } else {
        SettleMostSquares(gameId);
      }
    }

    /** The `most_squares` rule once all 25 cells are stamped. */
    method SettleMostSquares(gameId: GameId)
      requires Valid() && gameId in games
      modifies this
      ensures Valid()
      ensures flagsLeft == old(flagsLeft) && votesByGame == old(votesByGame) && players == old(players)
      ensures var out := MostSquaresOutcome(old(games), players, gameId);
              games == out.games && log == old(log) + out.events
    {
      var game := games[gameId];
      var entries := StampCounts(players, game.roster);
      if "most_squares" in game.rules && TotalStamped(entries) == 25 {
        var winner := MostSquares(entries);
        if winner.Some? {
          DeclareWinner(gameId, winner.value);
          return;
        }
      }
      log := log + [UpdateState(gameId)];
    }

    /** The regular branch of `stamp`. */
    method StampCard(gameId: GameId, playerId: PlayerId, r: Num, c: Num)
      requires Valid() && MayStamp(gameId, playerId) && games[gameId].mode == Regular
      modifies this
      ensures Valid()
      ensures flagsLeft == old(flagsLeft) && votesByGame == old(votesByGame)
      ensures var out := StampCardOutcome(old(games), old(players), gameId, playerId, r, c);
              games == out.games && players == out.players && log == old(log) + out.events
    {
      if !(OnCard(r) && OnCard(c)) {
        return;
      }
      var player := players[playerId];
      var p := (r.i, c.i);
      var card := Flip(player.card, p);
      StampCardStep(games, players, gameId, playerId, r, c);
      var won := !At(player.card, p).stamped && LegacyCheckWin(CardArg(card), games[gameId].rules) == Some(true);
      SettleCard(gameId, playerId, card, won);
    }

    /** Storing the flipped card, then ending the game when `won`. */
    method SettleCard(gameId: GameId, playerId: PlayerId, card: Card, won: bool)
      requires Valid() && playerId in players && gameId in games
      requires WellFormed(games, players[playerId := players[playerId].(card := card)])
      modifies this
      ensures Valid()
      ensures flagsLeft == old(flagsLeft) && votesByGame == old(votesByGame)
      ensures var out := CardSettle(old(games), old(players)[playerId := old(players[playerId]).(card := card)],
                                    gameId, old(players[playerId]).name, won);
              games == out.games && players == out.players && log == old(log) + out.events
    {
      var name := players[playerId].name;
      players := players[playerId := players[playerId].(card := card)];
      if won {
        DeclareWinner(gameId, name);
      } else {
        log := log + [UpdateState(gameId)];
      }
    }

    /** `game.update({ status: 'ended', winner })` and the `win` broadcast. */
    method DeclareWinner(gameId: GameId, name: string)
      requires Valid() && gameId in games
      modifies this
      ensures Valid()
      ensures flagsLeft == old(flagsLeft) && votesByGame == old(votesByGame) && players == old(players)
      ensures var out := Declared(old(games), players, gameId, name);
              games == out.games && log == old(log) + out.events
    {
      RestatusKeepsWellFormed(games, players, gameId, EndWith(games[gameId], name));
      games := games[gameId := EndWith(games[gameId], name)];
      log := log + [Win(gameId, name), UpdateState(gameId)];
    }

    // ------------------------------------------------------------ reroll

    /** A game that has not ended: `reroll` goes ahead. */
    predicate Live(gameId: GameId)
      reads this
    {
      gameId in games && games[gameId].status != Ended
    }

    /** `reroll`: in VS mode the shared card is rerolled for everybody, in
        regular mode the target's own card; an ended or unknown game, or a
        target outside the game, changes nothing. */
    method Reroll(gameId: GameId, targetPlayerId: PlayerId, kind: string, arg: string)
      requires Valid()
      modifies this
      ensures Valid()
      ensures flagsLeft == old(flagsLeft) && votesByGame == old(votesByGame)
      ensures !old(Live(gameId)) ==> games == old(games) && players == old(players) && log == old(log)
      ensures old(Live(gameId)) && old(games[gameId].mode) == VS ==>
                SharedRerolled(old(games), old(players), gameId, kind, arg, items, games, players) &&
                log == old(log) + [UpdateState(gameId)]
      ensures old(Live(gameId)) && old(games[gameId].mode) == Regular ==>
                games == old(games) &&
                (targetPlayerId in old(games[gameId].roster) ==>
                   OwnRerolled(old(players), targetPlayerId, kind, arg, items, players) &&
                   log == old(log) + [UpdateState(gameId)]) &&
                (targetPlayerId !in old(games[gameId].roster) ==> players == old(players) && log == old(log))
    {
      if !Live(gameId) {
        return;
      }
      if games[gameId].mode == VS {
        RerollShared(gameId, kind, arg);
      } else {
        RerollOwn(gameId, targetPlayerId, kind, arg);
      }
    }

    method RerollShared(gameId: GameId, kind: string, arg: string)
      requires Valid() && gameId in games && games[gameId].mode == VS
      modifies this
      ensures Valid()
      ensures flagsLeft == old(flagsLeft) && votesByGame == old(votesByGame)
      ensures SharedRerolled(old(games), old(players), gameId, kind, arg, items, games, players)
      ensures log == old(log) + [UpdateState(gameId)]
    {
      var game := games[gameId];
      var card, ps, k := RerollCard(game.sharedCard, kind, arg, items);
      var positions := RerolledPositions(kind, arg);
      SharedRerollKeepsWellFormed(games, players, gameId, card, positions);
      ghost var games0, players0 := games, players;
      games := games[gameId := game.(sharedCard := card)];
      ShareReroll(game.roster, card, positions);
      log := log + [UpdateState(gameId)];
      assert RerollOutcome(game.sharedCard, kind, arg, items, card, ps, k);
      assert games == games0[gameId := game.(sharedCard := card)];
      assert players == AfterSharedReroll(players0, game.roster, card, positions);
    }

    /** The loop over `game.players` of the VS reroll, on the records read
        before it. */
    method ShareReroll(roster: seq<PlayerId>, card: Card, positions: seq<RawPos>)
      requires RosterIn(players, roster)
      modifies this
      ensures players == AfterSharedReroll(old(players), roster, card, positions)
      ensures games == old(games) && flagsLeft == old(flagsLeft) && votesByGame == old(votesByGame) && log == old(log)
    {
      var snapshot := players;
      assert AfterSharedReroll(snapshot, [], card, positions) == snapshot;
      for i := 0 to |roster|
        invariant players == AfterSharedReroll(snapshot, roster[..i], card, positions)
        invariant games == old(games) && flagsLeft == old(flagsLeft) && votesByGame == old(votesByGame) && log == old(log)
      {
        var p := roster[i];
        assert roster[..i + 1] == roster[..i] + [p];
        players := players[p := snapshot[p].(card := card, stamps := Purge(snapshot[p].stamps, positions))];
      }
      assert roster[..|roster|] == roster;
    }

    method RerollOwn(gameId: GameId, targetPlayerId: PlayerId, kind: string, arg: string)
      requires Valid() && gameId in games && games[gameId].mode == Regular
      modifies this
      ensures Valid()
      ensures flagsLeft == old(flagsLeft) && votesByGame == old(votesByGame) && games == old(games)
      ensures targetPlayerId in old(games[gameId].roster) ==>
                OwnRerolled(old(players), targetPlayerId, kind, arg, items, players) &&
                log == old(log) + [UpdateState(gameId)]
      ensures targetPlayerId !in old(games[gameId].roster) ==> players == old(players) && log == old(log)
    {
      if targetPlayerId !in games[gameId].roster {
        return;
      }
      var player := players[targetPlayerId];
      var card, ps, k := RerollCard(player.card, kind, arg, items);
      UpdateOnePlayer(games, players, targetPlayerId, player.(card := card));
      ghost var players0 := players;
      players := players[targetPlayerId := player.(card := card)];
      log := log + [UpdateState(gameId)];
      assert RerollOutcome(player.card, kind, arg, items, card, ps, k) &&
             players == players0[targetPlayerId := players0[targetPlayerId].(card := card)];
    }

    // ------------------------------------------------------------ new_game

    /** `new_game` with `draws` standing for the shuffles `generateCard` makes
        (each a permutation of the prompt list): only an ended game restarts;
        a VS game gets the first shuffle's card as its shared card and every
        player that card and no stamps, a regular game deals each player a
        card no other player of the round holds. */
    method NewGame(gameId: GameId, draws: seq<seq<string>>)
      requires Valid()
      requires forall j :: 0 <= j < |draws| ==> multiset(draws[j]) == multiset(items)
      requires gameId in games && games[gameId].status == Ended ==>
                 if games[gameId].mode == VS then |draws| >= 1
                 else DealFrom(draws, |games[gameId].roster|, []).Some?
      modifies this
      ensures Valid()
      ensures flagsLeft == old(flagsLeft) && votesByGame == old(votesByGame)
      ensures old(Live(gameId)) || gameId !in old(games) ==>
                games == old(games) && players == old(players) && log == old(log)
      ensures gameId in old(games) && old(games[gameId]).status == Ended && old(games[gameId]).mode == VS ==>
                var card := GenerateCard(draws[0]);
                games == old(games)[gameId := Restart(old(games[gameId])).(sharedCard := card)] &&
                players == AfterSharedDeal(old(players), old(games[gameId]).roster, card) &&
                log == old(log) + [UpdateState(gameId)]
      ensures gameId in old(games) && old(games[gameId]).status == Ended && old(games[gameId]).mode == Regular ==>
                games == old(games)[gameId := Restart(old(games[gameId]))] &&
                players == AfterDeal(old(players), old(games[gameId]).roster,
                                     DealFrom(draws, |old(games[gameId]).roster|, []).value) &&
                log == old(log) + [UpdateState(gameId)]
    {
      if gameId !in games || games[gameId].status != Ended {
        return;
      }
      forall j | 0 <= j < |draws| ensures |draws[j]| >= 25 {
        assert |draws[j]| == |multiset(draws[j])| == |multiset(items)| == |items|;
      }
      var game := games[gameId];
      if game.mode == VS {
        var card := GenerateCard(draws[0]);
        DealtCardIsFresh(draws[0]);
        SharedDealKeepsWellFormed(games, players, gameId, card);
        games := games[gameId := Restart(game).(sharedCard := card)];
        ShareDeal(game.roster, card);
      } else {
        DealKeepsWellFormed(games, players, gameId, draws);
        games := games[gameId := Restart(game)];
        DealCards(game.roster, draws);
      }
      log := log + [UpdateState(gameId)];
    }

    /** The loop over `game.players` of the VS `new_game`. */
    method ShareDeal(roster: seq<PlayerId>, card: Card)
      requires RosterIn(players, roster)
      modifies this
      ensures players == AfterSharedDeal(old(players), roster, card)
      ensures games == old(games) && flagsLeft == old(flagsLeft) && votesByGame == old(votesByGame) && log == old(log)
    {
      var snapshot := players;
      assert AfterSharedDeal(snapshot, [], card) == snapshot;
      for i := 0 to |roster|
        invariant players == AfterSharedDeal(snapshot, roster[..i], card)
        invariant games == old(games) && flagsLeft == old(flagsLeft) && votesByGame == old(votesByGame) && log == old(log)
      {
        var p := roster[i];
        assert roster[..i + 1] == roster[..i] + [p];
        players := players[p := snapshot[p].(card := card, stamps := [])];
      }
      assert roster[..|roster|] == roster;
    }

    /** The loop over `game.players` of the regular `new_game`, with its
        inner `do ... while` that draws again while the card is already
        taken in this round. */
    method DealCards(roster: seq<PlayerId>, draws: seq<seq<string>>)
      requires RosterIn(players, roster) && NoDup(roster) && DealFrom(draws, |roster|, []).Some?
      modifies this
      ensures players == AfterDeal(old(players), roster, DealFrom(draws, |roster|, []).value)
      ensures games == old(games) && flagsLeft == old(flagsLeft) && votesByGame == old(votesByGame) && log == old(log)
    {
      var snapshot := players;
      ghost var round := DealFrom(draws, |roster|, []);
      var used: seq<Card> := [];
      var k := 0;
      assert AfterDeal(snapshot, roster[..0], used) == snapshot;
      for i := 0 to |roster|
        invariant 0 <= k <= |draws| && |used| == i
        invariant DealFrom(draws[k..], |roster| - i, used) == round
        invariant players == AfterDeal(snapshot, roster[..i], used)
        invariant games == old(games) && flagsLeft == old(flagsLeft) && votesByGame == old(votesByGame) && log == old(log)
      {
        var card;
        card, k := DrawUnused(draws, k, used, |roster| - i);
        AfterDealStep(snapshot, roster, i, used, card);
        used := used + [card];
        players := players[roster[i] := snapshot[roster[i]].(card := card)];
      }
      assert roster[..|roster|] == roster;
    }

    // ------------------------------------------------------------ throw_flag and cast_vote

    /** The guards of `throw_flag`: no vote running in the game, a flag
        left, and a game of at least two players. */
    predicate MayFlag(gameId: GameId, flaggerId: PlayerId)
      reads this
    {
      gameId !in votesByGame && flaggerId in flagsLeft && flagsLeft[flaggerId] > 0 &&
      gameId in games && |games[gameId].roster| >= 2
    }

    /** `throw_flag`: one flag is spent and a vote opens with every player of
        the game as a voter. The flagger need not belong to the game. */
    method ThrowFlag(gameId: GameId, flaggerId: PlayerId, targetPlayerId: PlayerId, row: Num, col: Num)
      requires Valid()
      modifies this
      ensures Valid()
      ensures games == old(games) && players == old(players)
      ensures !old(MayFlag(gameId, flaggerId)) ==>
                flagsLeft == old(flagsLeft) && votesByGame == old(votesByGame) && log == old(log)
      ensures old(MayFlag(gameId, flaggerId)) ==>
                flagsLeft == old(flagsLeft)[flaggerId := old(flagsLeft[flaggerId]) - 1] &&
                votesByGame == old(votesByGame)[gameId := OpenVote(flaggerId, targetPlayerId, row, col, games[gameId].roster)] &&
                log == old(log) + [StartVote(gameId, flaggerId, targetPlayerId, row, col)]
    {
      if !MayFlag(gameId, flaggerId) {
        return;
      }
      flagsLeft := flagsLeft[flaggerId := flagsLeft[flaggerId] - 1];
      votesByGame := votesByGame[gameId := OpenVote(flaggerId, targetPlayerId, row, col, games[gameId].roster)];
      log := log + [StartVote(gameId, flaggerId, targetPlayerId, row, col)];
    }

    /** `cast_vote`: a ballot from a voter of the running vote who has not
        voted yet is recorded and the tally broadcast; once every voter has
        voted the result is broadcast, the vote closes, and a challenge won
        by a strict majority clears the flagged cell of the target. The
        clearing runs asynchronously in the source after the result is
        sent; here it is folded into the same step. */
    method CastVote(gameId: GameId, playerId: PlayerId, vote: string)
      requires Valid()
      modifies this
      ensures Valid()
      ensures games == old(games) && flagsLeft == old(flagsLeft)
      ensures gameId !in old(votesByGame) || Record(old(votesByGame[gameId]), playerId, vote).None? ==>
                players == old(players) && votesByGame == old(votesByGame) && log == old(log)
      ensures gameId in old(votesByGame) && Record(old(votesByGame[gameId]), playerId, vote).Some? ==>
                var w := Record(old(votesByGame[gameId]), playerId, vote).value;
                var tally := VoteUpdate(gameId, YesCount(w), NoCount(w), CastCount(w), w.totalPlayers);
                (!AllVoted(w) ==>
                   votesByGame == old(votesByGame)[gameId := w] && players == old(players) &&
                   log == old(log) + [tally]) &&
                (AllVoted(w) && !Passed(w) ==>
                   votesByGame == old(votesByGame) - {gameId} && players == old(players) &&
                   log == old(log) + [tally, VoteResult(gameId, false)]) &&
                (AllVoted(w) && Passed(w) ==>
                   var out := Uphold(old(games), old(players), gameId, w);
                   votesByGame == old(votesByGame) - {gameId} && players == out.players &&
                   log == old(log) + [tally, VoteResult(gameId, true)] + out.events)
    {
      if gameId !in votesByGame {
        return;
      }
      var rec := Record(votesByGame[gameId], playerId, vote);
      if rec.None? {
        return;
      }
      var w := rec.value;
      assert w.votes.Keys == votesByGame[gameId].votes.Keys;
      var tally := VoteUpdate(gameId, YesCount(w), NoCount(w), CastCount(w), w.totalPlayers);
      if !AllVoted(w) {
        votesByGame := votesByGame[gameId := w];
        log := log + [tally];
        return;
      }
      votesByGame := votesByGame - {gameId};
      if !Passed(w) {
        log := log + [tally, VoteResult(gameId, false)];
        return;
      }
      var out := Uphold(games, players, gameId, w);
      UpholdKeepsWellFormed(games, players, gameId, w);
      players := out.players;
      log := log + [tally, VoteResult(gameId, true)] + out.events;
    }
  }
}
