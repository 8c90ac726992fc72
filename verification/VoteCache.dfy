/**
 * The Redis half of the write-behind vote buffer: the keys of one entity and
 * the atomic cast script. The flush protocol that drains these keys into the
 * database is in VoteFlush.
 */
module VoteCache {
  import opened Prelude

  type UserId = int
  type Votes = map<UserId, int>

  /** The votes hash, the score key (None when the key does not exist) and the deleted set of one entity. */
  datatype Entity = Entity(votes: Votes, score: Option<int>, deleted: set<UserId>)

  /** One call of the cast script. */
  datatype Ballot = Ballot(user: UserId, vote: int)

  const NO_KEYS := Entity(map[], None, {})

  function VoteOf(votes: Votes, u: UserId): int {
    if u in votes then votes[u] else 0
  }

  function ScoreOf(e: Entity): int {
    e.score.GetOr(0)
  }

  function Delta(e: Entity, b: Ballot): int {
    b.vote - VoteOf(e.votes, b.user)
  }

  /** The effect of the cast script on an entity's keys; the dirty mark is set iff Delta is not 0. */
  function Cast(e: Entity, b: Ballot): Entity {
    Entity(
      if b.vote == 0 then e.votes - {b.user} else e.votes[b.user := b.vote],
      if Delta(e, b) == 0 then e.score else Some(ScoreOf(e) + Delta(e, b)),
      if b.vote == 0 then e.deleted + {b.user} else e.deleted - {b.user})
  }

  function CastAll(e: Entity, bs: seq<Ballot>): Entity {
    if bs == [] then e else Cast(CastAll(e, bs[..|bs| - 1]), bs[|bs| - 1])
  }

  // ---------- What a cast keeps ----------

  ghost function Sum(votes: Votes): int {
    if exists u :: u in votes then
      var u :| u in votes;
      votes[u] + Sum(votes - {u})
    else
      0
  }

  lemma {:induction false} SumSplit(votes: Votes, u: UserId)
    requires u in votes
    ensures Sum(votes) == votes[u] + Sum(votes - {u})
    decreases votes
  {
    var w :| w in votes && Sum(votes) == votes[w] + Sum(votes - {w});
    if w != u {
      SumSplit(votes - {w}, u);
      SumSplit(votes - {u}, w);
      assert votes - {w} - {u} == votes - {u} - {w};
    }
  }

  lemma SumRemove(votes: Votes, u: UserId)
    ensures Sum(votes - {u}) == Sum(votes) - VoteOf(votes, u)
  {
    if u in votes {
      SumSplit(votes, u);
    } else {
      assert votes - {u} == votes;
    }
  }

  lemma SumUpdate(votes: Votes, u: UserId, v: int)
    ensures Sum(votes[u := v]) == Sum(votes) - VoteOf(votes, u) + v
  {
    var after := votes[u := v];
    SumSplit(after, u);
    assert after - {u} == votes - {u};
    SumRemove(votes, u);
  }

  /** What the score holds beyond the votes in the hash; 0 unless the score was preloaded without its votes. */
  ghost function Base(e: Entity): int {
    ScoreOf(e) - Sum(e.votes)
  }

  lemma CastConservesBase(e: Entity, b: Ballot)
    ensures Base(Cast(e, b)) == Base(e)
  {
    SumRemove(e.votes, b.user);
    SumUpdate(e.votes, b.user, b.vote);
  }

  // ---------- Refinement of last-write-wins ----------

  /** The reference meaning of a list of casts: what user u last asked for, or what they had before. */
  function LastWrite(before: Votes, bs: seq<Ballot>, u: UserId): int {
    if bs == [] then VoteOf(before, u)
    else if bs[|bs| - 1].user == u then bs[|bs| - 1].vote
    else LastWrite(before, bs[..|bs| - 1], u)
  }

  ghost predicate NoZeroStored(votes: Votes) {
    forall u :: u in votes ==> votes[u] != 0
  }

  lemma {:induction false} CastsRefineLastWrite(e: Entity, bs: seq<Ballot>)
    requires NoZeroStored(e.votes) && e.votes.Keys !! e.deleted
    ensures
      var r := CastAll(e, bs);
      && NoZeroStored(r.votes)
      && (forall u :: VoteOf(r.votes, u) == LastWrite(e.votes, bs, u))
      && ScoreOf(r) == Base(e) + Sum(r.votes)
      && r.votes.Keys !! r.deleted
      && (forall u :: u in e.votes ==> u in r.votes || u in r.deleted)
  {
    if bs != [] {
      var init, b := bs[..|bs| - 1], bs[|bs| - 1];
      CastsRefineLastWrite(e, init);
      var m := CastAll(e, init);
      CastConservesBase(m, b);
      assert CastAll(e, bs) == Cast(m, b);
    }
  }

  lemma CastsCommute(e: Entity, a: Ballot, b: Ballot)
    requires a.user != b.user
    ensures Cast(Cast(e, a), b) == Cast(Cast(e, b), a)
  {
    var ab, ba := Cast(Cast(e, a), b), Cast(Cast(e, b), a);
    assert ab.votes == ba.votes;
    assert ab.deleted == ba.deleted;
  }

  ghost predicate UnitVotes(votes: Votes) {
    forall u :: u in votes ==> -1 <= votes[u] <= 1
  }

  lemma {:induction false} SumBound(votes: Votes)
    requires UnitVotes(votes)
    ensures -|votes| <= Sum(votes) <= |votes|
    decreases votes
  {
    if exists u :: u in votes {
      var u :| u in votes;
      SumSplit(votes, u);
      SumBound(votes - {u});
      assert (votes - {u}).Keys == votes.Keys - {u};
      assert |votes| == |votes - {u}| + 1 by {
        assert |votes| == |votes.Keys| && |votes - {u}| == |(votes - {u}).Keys|;
      }
    }
  }

  /** Starting from nothing, ballots in {-1, 0, 1} never push the score past the number of current voters. */
  lemma {:induction false} ScoreBoundedByVoters(bs: seq<Ballot>)
    requires forall i :: 0 <= i < |bs| ==> -1 <= bs[i].vote <= 1
    ensures var r := CastAll(NO_KEYS, bs); -|r.votes| <= ScoreOf(r) <= |r.votes|
  {
    CastsRefineLastWrite(NO_KEYS, bs);
    var r := CastAll(NO_KEYS, bs);
    forall u | u in r.votes ensures -1 <= r.votes[u] <= 1 {
      LastWriteIsUnit(bs, u);
      assert VoteOf(r.votes, u) == LastWrite(map[], bs, u);
    }
    SumBound(r.votes);
  }

  lemma {:induction false} LastWriteIsUnit(bs: seq<Ballot>, u: UserId)
    requires forall i :: 0 <= i < |bs| ==> -1 <= bs[i].vote <= 1
    ensures -1 <= LastWrite(map[], bs, u) <= 1
  {
    if bs != [] {
      LastWriteIsUnit(bs[..|bs| - 1], u);
    }
  }
}
