/** `GET /api/polls/participants`: a participant count for a poll, read
    from an optional legacy global store by a priority chain, and never a
    404. The store module never creates that global, so in this
    repository the chain always ends in its default, 0. */
module ParticipantsRoute {
  import opened Wrappers
  import opened Db
  import opened Http

  /** A poll of the legacy store: `options` is `None` when absent, and
      each option's `votes` is `None` when absent. */
  datatype LegacyPoll = LegacyPoll(id: string, options: Option<seq<Option<int>>>)

  /** The value stored for a poll in `participantsByPoll`: a number, or
      anything else. */
  datatype CountEntry = Count(n: int) | NotANumber

  /** The value stored for a poll in `votesByPoll`: an array of vote
      records, reduced to their `userId`s (`None` where a record has none),
      or anything else. */
  datatype VoteLog = VoteArray(userIds: seq<Option<string>>) | NotAnArray

  /** The legacy global, each part `None` when absent. */
  datatype LegacyDb = LegacyDb(
    polls: Option<seq<LegacyPoll>>,
    votesByPoll: Option<map<string, VoteLog>>,
    participantsByPoll: Option<map<string, CountEntry>>)

  /** The number of different `userId` values in a vote log, never more
      than its length and at least one when it is not empty. */
  function DistinctVoters(ids: seq<Option<string>>): (n: nat)
    ensures n <= |ids|
    ensures ids != [] ==> n >= 1
  {
    DistinctBound(ids);
    |set i | 0 <= i < |ids| :: ids[i]|
  }

  lemma {:induction false} DistinctBound(ids: seq<Option<string>>)
    ensures |set i | 0 <= i < |ids| :: ids[i]| <= |ids|
    ensures ids != [] ==> |set i | 0 <= i < |ids| :: ids[i]| >= 1
  {
    if ids != [] {
      var front := ids[..|ids| - 1];
      DistinctBound(front);
      var all := set i | 0 <= i < |ids| :: ids[i];
      var before := set i | 0 <= i < |front| :: front[i];
      var last := ids[|ids| - 1];
      assert all == before + {last} by {
        forall x | x in all ensures x in before + {last} {
          var i :| 0 <= i < |ids| && ids[i] == x;
          if i < |front| { assert front[i] == x; }
        }
        forall x | x in before ensures x in all {
          var i :| 0 <= i < |front| && front[i] == x;
          assert ids[i] == x;
        }
      }
      assert |all| <= |before| + 1;
      assert {ids[0]} <= all;
    }
  }

  /** A voter already in the log adds nothing when they appear again. */
  lemma RepeatedVoterCountsOnce(ids: seq<Option<string>>, k: nat)
    requires k < |ids|
    ensures DistinctVoters(ids + [ids[k]]) == DistinctVoters(ids)
  {
    var more := ids + [ids[k]];
    var after := set i | 0 <= i < |more| :: more[i];
    var before := set i | 0 <= i < |ids| :: ids[i];
    assert after == before by {
      assert more[|ids|] == ids[k];
      assert forall i :: 0 <= i < |ids| ==> more[i] == ids[i];
    }
  }

  /** `options.reduce((sum, o) => sum + (o.votes ?? 0), 0)`. */
  function SumVotes(options: seq<Option<int>>): (total: int)
    ensures (forall k :: 0 <= k < |options| ==> options[k].GetOr(0) >= 0) ==> total >= 0
  {
    if options == [] then 0 else SumVotes(options[..|options| - 1]) + options[|options| - 1].GetOr(0)
  }

  /** Options without a `votes` field add nothing to the sum. */
  lemma {:induction false} MissingVotesCountZero(options: seq<Option<int>>, k: nat)
    requires k < |options|
    ensures SumVotes(options[k := Some(0)]) == SumVotes(options[k := None])
    decreases |options|
  {
    var last := |options| - 1;
    if k < last {
      assert options[k := Some(0)][..last] == options[..last][k := Some(0)];
      assert options[k := None][..last] == options[..last][k := None];
      MissingVotesCountZero(options[..last], k);
    } else {
      assert options[k := Some(0)][..last] == options[k := None][..last];
    }
  }

  /** Where the chain ends for a poll id. */
  function ParticipantCount(db: Option<LegacyDb>, pollId: string): (n: int)
    ensures db.Some? && db.value.participantsByPoll.Some? && pollId in db.value.participantsByPoll.value &&
            db.value.participantsByPoll.value[pollId].Count? ==>
              n == db.value.participantsByPoll.value[pollId].n
  {
    if db.Some? && db.value.participantsByPoll.Some? && pollId in db.value.participantsByPoll.value
       && db.value.participantsByPoll.value[pollId].Count?
    then db.value.participantsByPoll.value[pollId].n
    else if db.Some? && db.value.votesByPoll.Some? && pollId in db.value.votesByPoll.value
            && db.value.votesByPoll.value[pollId].VoteArray?
    then DistinctVoters(db.value.votesByPoll.value[pollId].userIds)
    else if db.Some? && db.value.polls.Some? then
      var polls := db.value.polls.value;
      match FirstIndex(polls, (p: LegacyPoll) => p.id == pollId)
      case Some(i) =>
        if polls[i].options.Some? && polls[i].options.value != [] then SumVotes(polls[i].options.value) else 0
      case None => 0
    else 0
  }

  /** `GET(req)`: 400 without a poll id, otherwise 200 with the count,
      never 404, whether or not the poll exists. */
  function Get(db: Option<LegacyDb>, pollId: Option<string>): (resp: Response<int>)
    ensures pollId.None? || pollId == Some("") ==> resp == Error(400, "Missing pollId")
    ensures pollId.Some? && pollId.value != "" ==> resp == Json(200, ParticipantCount(db, pollId.value))
    ensures resp.status != 404
  {
    if pollId.None? || pollId.value == "" then Error(400, "Missing pollId")
    else Json(200, ParticipantCount(db, pollId.value))
  }

  /** The poll's `participantsByPoll` entry is a number. */
  predicate HasCount(db: LegacyDb, pollId: string) {
    db.participantsByPoll.Some? && pollId in db.participantsByPoll.value && db.participantsByPoll.value[pollId].Count?
  }

  /** The poll's `votesByPoll` entry is an array. */
  predicate HasVoteLog(db: LegacyDb, pollId: string) {
    db.votesByPoll.Some? && pollId in db.votesByPoll.value && db.votesByPoll.value[pollId].VoteArray?
  }

  /** Whenever the poll's own count entry is not a number, a vote log is
      counted by distinct voters, so a voter who appears twice counts once. */
  lemma VoteLogCountsVoters(db: LegacyDb, pollId: string, ids: seq<Option<string>>)
    requires !HasCount(db, pollId)
    requires db.votesByPoll.Some? && pollId in db.votesByPoll.value && db.votesByPoll.value[pollId] == VoteArray(ids)
    ensures 0 < |ids| ==> 1 <= ParticipantCount(Some(db), pollId) <= |ids|
    ensures ParticipantCount(Some(db), pollId) == DistinctVoters(ids)
  {
  }

  /** The vote counters are summed only when the poll has neither a number
      nor a vote log of its own: the first poll with the id gives its summed
      votes (0 when it has no options), and no such poll gives 0. */
  lemma FallbackSumsVotes(db: LegacyDb, pollId: string)
    requires !HasCount(db, pollId) && !HasVoteLog(db, pollId)
    ensures db.polls.None? ==> ParticipantCount(Some(db), pollId) == 0
    ensures db.polls.Some? && (forall j :: 0 <= j < |db.polls.value| ==> db.polls.value[j].id != pollId) ==>
              ParticipantCount(Some(db), pollId) == 0
    ensures db.polls.Some? ==>
              forall i :: 0 <= i < |db.polls.value| && db.polls.value[i].id == pollId &&
                          (forall j :: 0 <= j < i ==> db.polls.value[j].id != pollId) ==>
                ParticipantCount(Some(db), pollId) ==
                  if db.polls.value[i].options.Some? then SumVotes(db.polls.value[i].options.value) else 0
  {
    if db.polls.Some? {
      var found := FirstIndex(db.polls.value, (p: LegacyPoll) => p.id == pollId);
    }
  }

  /** The global is never created, so every request with a poll id is
      answered 0, whatever the real store holds. */
  lemma AlwaysZeroHere(pollId: string)
    requires pollId != ""
    ensures Get(None, Some(pollId)) == Json(200, 0)
  {
  }
}
