/** The flag vote of server.js (lines 608-716): a player spends a flag to
    challenge another player's stamp, every player of the game becomes an
    eligible voter, and the challenge passes on a strict majority of the
    ballots once all of them are in. */
module Votes {

  import opened Wrappers
  import opened Js

  datatype Ballot = Yes | No

  /** `voteState`: the voters were snapshot when the flag was thrown;
      `None` is a ballot not yet cast. `row` and `col` are kept as sent. */
  datatype VoteState = VoteState(flaggerId: string, targetPlayerId: string, row: Num, col: Num,
                                 votes: map<string, Option<Ballot>>, totalPlayers: nat)

  /** Every voter snapshot once, nobody has voted yet, and `totalPlayers` is
      the number of voters. */
  function OpenVote(flaggerId: string, targetPlayerId: string, row: Num, col: Num, voters: seq<string>): (v: VoteState)
    ensures v.votes.Keys == set p | p in voters
    ensures forall p :: p in v.votes ==> v.votes[p] == None
    ensures v.totalPlayers == |v.votes|
  {
    var votes := map p | p in voters :: None;
    VoteState(flaggerId, targetPlayerId, row, col, votes, |votes|)
  }

  /** `vote === 'yes' ? 'yes' : 'no'`. */
  function BallotOf(vote: string): (b: Ballot)
    ensures b == Yes <==> vote == "yes"
  {
    if vote == "yes" then Yes else No
  }

  /** Recording a ballot: ignored (`None`) from a voter outside the snapshot
      or one who already voted. */
  function Record(v: VoteState, pid: string, vote: string): (res: Option<VoteState>)
    ensures res.None? <==> pid !in v.votes || v.votes[pid].Some?
    ensures res.Some? ==> res.value == v.(votes := v.votes[pid := Some(BallotOf(vote))])
  {
    if pid !in v.votes || v.votes[pid].Some? then None
    else Some(v.(votes := v.votes[pid := Some(BallotOf(vote))]))
  }

  function VotersFor(v: VoteState, b: Ballot): set<string> {
    set p | p in v.votes && v.votes[p] == Some(b)
  }

  function CastBy(v: VoteState): set<string> {
    set p | p in v.votes && v.votes[p].Some?
  }

  /** `votesFor`, `votesAgainst`, `votesCast`. */
  function YesCount(v: VoteState): nat { |VotersFor(v, Yes)| }
  function NoCount(v: VoteState): nat { |VotersFor(v, No)| }
  function CastCount(v: VoteState): nat { |CastBy(v)| }

  /** `voteValues.every(v => v === 'yes' || v === 'no')`. */
  predicate AllVoted(v: VoteState) {
    forall p :: p in v.votes ==> v.votes[p].Some?
  }

  /** `votesFor > votesAgainst`. */
  predicate Passed(v: VoteState) {
    YesCount(v) > NoCount(v)
  }

  /** Yes and no ballots together are the ballots cast, never more than the
      voters, and all voters have voted exactly when every one has cast one. */
  lemma CountsAddUp(v: VoteState)
    ensures YesCount(v) + NoCount(v) == CastCount(v) <= |v.votes|
    ensures AllVoted(v) <==> CastCount(v) == |v.votes|
  {
    var y, n, c := VotersFor(v, Yes), VotersFor(v, No), CastBy(v);
    forall p | p in c ensures p in y || p in n {
      assert p in v.votes && v.votes[p].Some?;
      if v.votes[p].value == Yes {
        assert v.votes[p] == Some(Yes);
      } else {
        assert v.votes[p] == Some(No);
      }
    }
    assert c == y + n;
    assert y * n == {};
    SubsetCard(c, v.votes.Keys);
    if !AllVoted(v) {
      var p :| p in v.votes && v.votes[p].None?;
      SubsetCard(c, v.votes.Keys - {p});
    } else {
      assert c == v.votes.Keys;
    }
  }

  lemma SubsetCard(a: set<string>, b: set<string>)
    requires a <= b
    ensures |a| <= |b|
  {
    assert b == a + (b - a);
  }

  /** A recorded ballot adds exactly one cast ballot, of the recorded kind. */
  lemma RecordCountsOnce(v: VoteState, pid: string, vote: string)
    requires Record(v, pid, vote).Some?
    ensures CastCount(Record(v, pid, vote).value) == CastCount(v) + 1
    ensures YesCount(Record(v, pid, vote).value) == YesCount(v) + (if vote == "yes" then 1 else 0)
    ensures NoCount(Record(v, pid, vote).value) == NoCount(v) + (if vote == "yes" then 0 else 1)
  {
    var b := BallotOf(vote);
    CastAfter(v, pid, b);
    VotersAfter(v, pid, b, Yes);
    VotersAfter(v, pid, b, No);
  }

  lemma CastAfter(v: VoteState, pid: string, b: Ballot)
    requires pid in v.votes && v.votes[pid].None?
    ensures CastBy(v.(votes := v.votes[pid := Some(b)])) == CastBy(v) + {pid} && pid !in CastBy(v)
  {
    var w := v.(votes := v.votes[pid := Some(b)]);
    forall p ensures p in CastBy(w) <==> p in CastBy(v) + {pid} {
      if p != pid {
        assert p in w.votes <==> p in v.votes;
      }
    }
  }

  lemma VotersAfter(v: VoteState, pid: string, b: Ballot, x: Ballot)
    requires pid in v.votes && v.votes[pid].None?
    ensures VotersFor(v.(votes := v.votes[pid := Some(b)]), x) ==
            if x == b then VotersFor(v, x) + {pid} else VotersFor(v, x)
    ensures pid !in VotersFor(v, x)
  {
    var w := v.(votes := v.votes[pid := Some(b)]);
    forall p ensures p in VotersFor(w, x) <==> p in (if x == b then VotersFor(v, x) + {pid} else VotersFor(v, x)) {
      if p != pid {
        assert p in w.votes <==> p in v.votes;
      }
    }
  }

  /** Three voters answering yes, yes and anything else pass the challenge;
      with one ballot still out there is no result yet. */
  lemma ScenarioTwoToOne(v: VoteState)
    requires v.votes == map["a" := Some(Yes), "b" := Some(Yes), "c" := Some(No)]
    ensures AllVoted(v) && Passed(v)
  {
    assert VotersFor(v, Yes) == {"a", "b"};
    assert VotersFor(v, No) == {"c"};
  }

  lemma ScenarioTie(v: VoteState)
    requires v.votes == map["a" := Some(Yes), "b" := Some(No)]
    ensures AllVoted(v) && !Passed(v)
  {
    assert "a" in v.votes && "b" in v.votes;
    assert forall p :: p in v.votes ==> p == "a" || p == "b";
    assert VotersFor(v, Yes) == {"a"};
    assert VotersFor(v, No) == {"b"};
  }

  lemma ScenarioPending(v: VoteState)
    requires v.votes == map["a" := Some(Yes), "b" := Some(No), "c" := None]
    ensures !AllVoted(v) && CastCount(v) == 2
  {
    assert "c" in v.votes && v.votes["c"] == None;
    assert CastBy(v) == {"a", "b"};
  }
}
