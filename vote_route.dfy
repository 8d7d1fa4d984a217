/** `POST /api/polls/vote`: cast or change a vote. The checks run in a fixed
    order (sign-in, rate limit, poll, voting window, selection, prior
    vote), and only an accepted request touches the counters. */
module VoteRoute {
  import opened Wrappers
  import opened Db
  import opened RateLimit
  import opened Auth
  import opened ClientIp
  import opened Http

  /** The JSON body: `optionIds` is `None` when it is not an array, and
      `revote` is whether the field is truthy. */
  datatype VoteBody = VoteBody(pollId: Option<string>, optionIds: Option<seq<string>>, revote: bool)

  const VOTE_LIMIT: int := 20
  const VOTE_WINDOW_MS: int := 60000

  /** Where the handler ends once the caller is signed in and admitted by
      the limiter. */
  datatype Outcome =
    | PollNotFound
    | NotStarted
    | Ended
    | NoOptions
    | NotExactlyOne
    | AlreadyVoted
    | Revote(pi: nat, prev: seq<string>, ids: seq<string>)
    | FirstVote(pi: nat, ids: seq<string>)
  {
    predicate Accepted() { Revote? || FirstVote? }

    function Status(): int {
      match this
      case PollNotFound => 404
      case NotStarted => 403
      case Ended => 403
      case NoOptions => 400
      case NotExactlyOne => 400
      case AlreadyVoted => 409
      case Revote(_, _, _) => 200
      case FirstVote(_, _) => 200
    }

    function Message(): string {
      match this
      case PollNotFound => "Poll not found"
      case NotStarted => "Voting has not started for this poll."
      case Ended => "Voting has ended for this poll."
      case NoOptions => "No options selected for voting."
      case NotExactlyOne => "Select exactly one option for single-choice polls."
      case AlreadyVoted => "You have already voted on this poll."
      case Revote(_, _, _) => ""
      case FirstVote(_, _) => ""
    }
  }

  /** The checks on the poll and the selection, which need nothing but
      the polls: either the rejection, or the poll's index and the
      selection that pass them. */
  datatype Gate = Rejected(outcome: Outcome) | Open(pi: nat, ids: seq<string>)

  /** An open gate names the poll `find` returns, a voting window that
      holds `now` (both ends included), a non-empty selection, and exactly
      one option for a single-choice poll; each rejection is the first
      check, in the handler's order, that fails. */
  function Screen(polls: seq<Poll>, body: VoteBody, now: int): (g: Gate)
    ensures g.Rejected? ==> !g.outcome.Accepted() && g.outcome != AlreadyVoted
    ensures (g == Rejected(PollNotFound)) <==> body.pollId.None? || GetPollById(polls, body.pollId.value).None?
    ensures g.Open? ==>
      body.pollId.Some? && GetPollById(polls, body.pollId.value) == Some(g.pi) &&
      polls[g.pi].startDate <= now <= polls[g.pi].endDate &&
      body.optionIds == Some(g.ids) && g.ids != [] &&
      (polls[g.pi].kind == SingleChoice ==> |g.ids| == 1)
    ensures body.pollId.Some? && GetPollById(polls, body.pollId.value).Some? ==>
      var p := polls[GetPollById(polls, body.pollId.value).value];
      var inWindow := p.startDate <= now <= p.endDate;
      var selected := body.optionIds.Some? && body.optionIds.value != [];
      && (g == Rejected(NotStarted) <==> now < p.startDate)
      && (g == Rejected(Ended) <==> p.startDate <= now && now > p.endDate)
      && (g == Rejected(NoOptions) <==> inWindow && !selected)
      && (g == Rejected(NotExactlyOne) <==> inWindow && selected && p.kind == SingleChoice && |body.optionIds.value| != 1)
  {
    if body.pollId.None? then Rejected(PollNotFound)
    else match GetPollById(polls, body.pollId.value)
      case None => Rejected(PollNotFound)
      case Some(pi) =>
        var poll := polls[pi];
        if now < poll.startDate then Rejected(NotStarted)
        else if now > poll.endDate then Rejected(Ended)
        else if body.optionIds.None? || body.optionIds.value == [] then Rejected(NoOptions)
        else if poll.kind == SingleChoice && |body.optionIds.value| != 1 then Rejected(NotExactlyOne)
        else Open(pi, body.optionIds.value)
  }

  /** The converse: a request for a known poll, inside its voting window
      (both ends included), with a non-empty selection of the right size,
      passes every poll check. */
  lemma ScreenOpens(polls: seq<Poll>, body: VoteBody, now: int, pi: nat)
    requires body.pollId.Some? && GetPollById(polls, body.pollId.value) == Some(pi)
    requires polls[pi].startDate <= now <= polls[pi].endDate
    requires body.optionIds.Some? && body.optionIds.value != []
    requires polls[pi].kind == SingleChoice ==> |body.optionIds.value| == 1
    ensures Screen(polls, body, now) == Open(pi, body.optionIds.value)
  {
  }

  /** The decision the handler takes for a signed-in, admitted caller, on
      the store as it is before the request: the poll checks, then the
      prior vote. An accepted vote is one `Screen` lets through; a revote
      carries the selection it replaces. */
  function Decide(polls: seq<Poll>, votesByPoll: map<string, map<string, seq<string>>>,
                  userId: string, body: VoteBody, now: int): (o: Outcome)
    ensures o.Accepted() ==> Screen(polls, body, now) == Open(o.pi, o.ids)
    ensures !o.Accepted() && o != AlreadyVoted ==> Screen(polls, body, now) == Rejected(o)
    ensures o.Revote? ==>
      body.revote && userId in VotesOf(votesByPoll, body.pollId.value) &&
      o.prev == VotesOf(votesByPoll, body.pollId.value)[userId]
    ensures o.FirstVote? ==> userId !in VotesOf(votesByPoll, body.pollId.value)
    ensures o == AlreadyVoted ==>
      Screen(polls, body, now).Open? && !body.revote && userId in VotesOf(votesByPoll, body.pollId.value)
  {
    match Screen(polls, body, now)
    case Rejected(r) => r
    case Open(pi, ids) =>
      var votes := VotesOf(votesByPoll, body.pollId.value);
      if userId in votes && !body.revote then AlreadyVoted
      else if userId in votes then Revote(pi, votes[userId], ids)
      else FirstVote(pi, ids)
  }

  /** A `revote` flag from a user with no recorded vote changes nothing:
      the request is a first vote either way. */
  lemma RevoteWithoutRecord(polls: seq<Poll>, votesByPoll: map<string, map<string, seq<string>>>,
                            userId: string, body: VoteBody, now: int)
    requires body.pollId.Some? && userId !in VotesOf(votesByPoll, body.pollId.value)
    ensures Decide(polls, votesByPoll, userId, body.(revote := true), now)
         == Decide(polls, votesByPoll, userId, body.(revote := false), now)
  {
  }

  /** A user who already voted is turned away with 409 unless `revote` is
      set, once every earlier check passes. */
  lemma SecondVoteNeedsRevote(polls: seq<Poll>, votesByPoll: map<string, map<string, seq<string>>>,
                              userId: string, body: VoteBody, now: int)
    requires body.pollId.Some? && userId in VotesOf(votesByPoll, body.pollId.value)
    ensures var o := Decide(polls, votesByPoll, userId, body, now);
      !o.FirstVote? && (o.Accepted() <==> o.Revote?) && (o.Revote? ==> body.revote)
  {
  }

  /** The poll's revote-then-record step keeps the whole store valid: the
      counters still equal base plus tally. */
  lemma RecordKeepsValid(users: seq<User>, polls: seq<Poll>, comments: seq<Comment>,
                         votesByPoll: map<string, map<string, seq<string>>>, commentLikes: map<string, set<string>>,
                         baseVotes: seq<seq<int>>, baseLikes: seq<int>,
                         pi: nat, userId: string, prev: seq<string>, ids: seq<string>,
                         decremented: seq<PollOption>, incremented: seq<PollOption>)
    requires StoreValid(users, polls, comments, votesByPoll, commentLikes, baseVotes, baseLikes)
    requires pi < |polls| && FirstPollWithId(polls, pi)
    requires var v := VotesOf(votesByPoll, polls[pi].id); prev == if userId in v then v[userId] else []
    requires Decremented(polls[pi].options, decremented, prev)
    requires Incremented(decremented, incremented, ids)
    ensures StoreValid(users, polls[pi := polls[pi].(options := incremented)], comments,
                       votesByPoll[polls[pi].id := VotesOf(votesByPoll, polls[pi].id)[userId := ids]],
                       commentLikes, baseVotes, baseLikes)
  {
    var id := polls[pi].id;
    var polls' := polls[pi := polls[pi].(options := incremented)];
    var votesByPoll' := votesByPoll[id := VotesOf(votesByPoll, id)[userId := ids]];
    assert forall q :: q != id ==> VotesOf(votesByPoll', q) == VotesOf(votesByPoll, q);
    VotePreservesTally(polls, baseVotes, votesByPoll, votesByPoll', pi, userId, prev, ids, decremented, incremented);
    assert forall i :: 0 <= i < |polls| ==> polls'[i].id == polls[i].id;
    assert PollIds(polls') == PollIds(polls);
    assert id in PollIds(polls);
  }

  /** On a valid store, taking a user's recorded selection off the
      counters never reaches the clamp at 0: each counter drops by exactly
      the number of times the selection names it. */
  lemma {:induction false} ClampNeverFires(polls: seq<Poll>, baseVotes: seq<seq<int>>,
                                          votesByPoll: map<string, map<string, seq<string>>>,
                                          pi: nat, userId: string, decremented: seq<PollOption>)
    requires PollsTallied(polls, baseVotes, votesByPoll)
    requires pi < |polls| && FirstPollWithId(polls, pi)
    requires userId in VotesOf(votesByPoll, polls[pi].id)
    requires Decremented(polls[pi].options, decremented, VotesOf(votesByPoll, polls[pi].id)[userId])
    ensures forall k :: 0 <= k < |decremented| ==>
      decremented[k].votes == polls[pi].options[k].votes
                              - Hits(polls[pi].options, k, VotesOf(votesByPoll, polls[pi].id)[userId])
  {
    var options := polls[pi].options;
    var v := VotesOf(votesByPoll, polls[pi].id);
    assert PollTallied(polls[pi], baseVotes[pi], v, true);
    forall k | 0 <= k < |decremented|
      ensures decremented[k].votes == options[k].votes - Hits(options, k, v[userId])
    {
      if FirstOptionWithId(options, k) {
        TallyRemove(v, userId, options[k].id);
      }
    }
  }

  /** Revoting with the selection already recorded leaves every counter
      of a valid store as it was. */
  lemma RevoteSameSelection(polls: seq<Poll>, baseVotes: seq<seq<int>>,
                            votesByPoll: map<string, map<string, seq<string>>>,
                            pi: nat, userId: string, ids: seq<string>,
                            decremented: seq<PollOption>, incremented: seq<PollOption>)
    requires PollsTallied(polls, baseVotes, votesByPoll)
    requires pi < |polls| && FirstPollWithId(polls, pi)
    requires userId in VotesOf(votesByPoll, polls[pi].id) && VotesOf(votesByPoll, polls[pi].id)[userId] == ids
    requires Decremented(polls[pi].options, decremented, ids)
    requires Incremented(decremented, incremented, ids)
    ensures incremented == polls[pi].options
  {
    var v := VotesOf(votesByPoll, polls[pi].id);
    assert v[userId := ids] == v;
    VotePreservesTally(polls, baseVotes, votesByPoll, votesByPoll, pi, userId, ids, ids, decremented, incremented);
    var polls' := polls[pi := polls[pi].(options := incremented)];
    assert PollTallied(polls'[pi], baseVotes[pi], VotesOf(votesByPoll, polls'[pi].id), FirstPollWithId(polls', pi));
    assert forall i :: 0 <= i < |polls| ==> polls'[i].id == polls[i].id;
    assert FirstPollWithId(polls', pi);
    var before := polls[pi].options;
    forall k | 0 <= k < |before| ensures incremented[k] == before[k] {
      SameShapeSameFirst(before, incremented, k);
    }
  }

  /** The counters after a revote: the previous selection taken off (never
      below 0), then the new one added. */
  ghost predicate Revoted(before: seq<PollOption>, after: seq<PollOption>, prev: seq<string>, ids: seq<string>) {
    exists mid :: Decremented(before, mid, prev) && Incremented(mid, after, ids)
  }

  lemma RevotedWitness(before: seq<PollOption>, mid: seq<PollOption>, after: seq<PollOption>,
                       prev: seq<string>, ids: seq<string>)
    requires Decremented(before, mid, prev) && Incremented(mid, after, ids)
    ensures Revoted(before, after, prev, ids)
  {
  }

  /** The accepted request's writes: a revote first takes the recorded
      selection off the counters, then the new selection is counted and
      recorded. Only that poll's counters and that user's record change. */
  method Record(db: Store, pi: nat, userId: string, ids: seq<string>, replace: bool)
    requires pi < |db.polls| && FirstPollWithId(db.polls, pi)
    requires replace <==> userId in VotesOf(db.votesByPoll, db.polls[pi].id)
    modifies db`polls, db`votesByPoll
    ensures |db.polls| == |old(db.polls)|
    ensures db.polls == old(db.polls)[pi := old(db.polls)[pi].(options := db.polls[pi].options)]
    ensures db.votesByPoll == old(db.votesByPoll)[old(db.polls)[pi].id :=
      VotesOf(old(db.votesByPoll), old(db.polls)[pi].id)[userId := ids]]
    ensures replace ==> Revoted(old(db.polls)[pi].options, db.polls[pi].options,
      VotesOf(old(db.votesByPoll), old(db.polls)[pi].id)[userId], ids)
    ensures !replace ==> Incremented(old(db.polls)[pi].options, db.polls[pi].options, ids)
    ensures old(db.Valid()) ==> db.Valid()
  {
    var pollId := db.polls[pi].id;
    ghost var polls0 := db.polls;
    ghost var votes0 := db.votesByPoll;
    ghost var valid0 := db.Valid();
    var prev: seq<string> := [];
    if replace {
      var prevOpt := db.GetUserVoteOptions(pollId, userId);
      prev := prevOpt.GetOr([]);
      db.DecrementVotes(pi, prev);
    }
    ghost var mid := db.polls[pi].options;
    db.IncrementVotes(pi, ids);
    db.SetUserVoteOptions(pollId, userId, ids);
    assert db.votesByPoll == votes0[pollId := VotesOf(votes0, pollId)[userId := ids]];
    if replace {
      RevotedWitness(polls0[pi].options, mid, db.polls[pi].options, prev, ids);
    }
    if valid0 {
      RecordKeepsValid(db.users, polls0, db.comments, votes0, db.commentLikes, db.baseVotes, db.baseLikes,
                       pi, userId, prev, ids, mid, db.polls[pi].options);
    }
  }

  /** How a request the limiter admitted leaves the polls and the vote
      records (`polls0`, `votes0` before, `polls`, `votes` after) and what
      it answers: a rejection answers its status and message and changes
      no counter and no record; an accepted vote answers 200 with the
      poll, changes only that poll's counters (by `Revoted` or
      `Incremented`) and records the new selection for that user. */
  ghost predicate Settled(polls0: seq<Poll>, votes0: map<string, map<string, seq<string>>>,
                          polls: seq<Poll>, votes: map<string, map<string, seq<string>>>,
                          userId: string, body: VoteBody, now: int, resp: Response<Poll>)
  {
    var o := Decide(polls0, votes0, userId, body, now);
    && (!o.Accepted() ==>
          && resp == Error(o.Status(), o.Message())
          && polls == polls0
          && forall q :: VotesOf(votes, q) == VotesOf(votes0, q))
    && (o.Accepted() ==>
          && |polls| == |polls0|
          && polls == polls0[o.pi := polls0[o.pi].(options := polls[o.pi].options)]
          && votes == votes0[body.pollId.value := VotesOf(votes0, body.pollId.value)[userId := o.ids]]
          && resp == Json(200, polls[o.pi]))
    && (o.Revote? ==> Revoted(polls0[o.pi].options, polls[o.pi].options, o.prev, o.ids))
    && (o.FirstVote? ==> Incremented(polls0[o.pi].options, polls[o.pi].options, o.ids))
  }

  /** The second half of the handler, once the caller is signed in and
      admitted: settles the request on the store. */
  method Cast(db: Store, userId: string, body: VoteBody, now: int) returns (resp: Response<Poll>)
    modifies db`polls, db`votesByPoll
    ensures Settled(old(db.polls), old(db.votesByPoll), db.polls, db.votesByPoll, userId, body, now, resp)
    ensures old(db.Valid()) ==> db.Valid()
  {
    var gate := Screen(db.polls, body, now);
    if gate.Rejected? {
      return Error(gate.outcome.Status(), gate.outcome.Message());
    }
    var pollId := body.pollId.value;
    var pi, ids := gate.pi, gate.ids;
    ghost var votes0 := db.votesByPoll;
    var already := db.HasUserVoted(pollId, userId);
    if already && !body.revote {
      return Error(409, "You have already voted on this poll.");
    }
    Record(db, pi, userId, ids, already);
    assert db.votesByPoll == votes0[pollId := VotesOf(votes0, pollId)[userId := ids]];
    resp := Json(200, db.polls[pi]);
  }

  /** `POST(req)`: 401 for an anonymous caller before anything is touched;
      otherwise the limiter is charged (`vote:` + client address, 20 per
      minute) before the poll is even looked up, a refusal answers 429
      with `Retry-After`, and the rest is `Cast`. Users, comments and likes
      are never touched, and a valid store stays valid. */
  method Post(db: Store, limiter: Limiter, P: Primitives, req: Request, body: VoteBody, now: int)
    returns (resp: Response<Poll>)
    modifies db`polls, db`votesByPoll, limiter
    ensures CurrentUser(P, old(db.users), req.authorization, req.cookie).None? ==>
      resp == Error(401, "Unauthorized: please sign in to vote.") &&
      limiter.store == old(limiter.store) && db.polls == old(db.polls) && db.votesByPoll == old(db.votesByPoll)
    ensures CurrentUser(P, old(db.users), req.authorization, req.cookie).Some? ==>
      limiter.store == Check(old(limiter.store), "vote:" + GetClientIp(req.forwardedFor, req.realIp),
                             VOTE_LIMIT, VOTE_WINDOW_MS, now).1
    ensures var rl := Check(old(limiter.store), "vote:" + GetClientIp(req.forwardedFor, req.realIp),
                            VOTE_LIMIT, VOTE_WINDOW_MS, now).0;
      CurrentUser(P, old(db.users), req.authorization, req.cookie).Some? && !rl.ok ==>
        resp == TooMany("Too many requests. Please wait a moment.", rl.resetAt, now) &&
        db.polls == old(db.polls) && db.votesByPoll == old(db.votesByPoll)
    ensures var rl := Check(old(limiter.store), "vote:" + GetClientIp(req.forwardedFor, req.realIp),
                            VOTE_LIMIT, VOTE_WINDOW_MS, now).0;
      var user := CurrentUser(P, old(db.users), req.authorization, req.cookie);
      user.Some? && rl.ok ==>
        Settled(old(db.polls), old(db.votesByPoll), db.polls, db.votesByPoll, user.value.id, body, now, resp)
    ensures old(db.Valid()) ==> db.Valid()
  {
    var user := CurrentUser(P, db.users, req.authorization, req.cookie);
    if user.None? {
      return Error(401, "Unauthorized: please sign in to vote.");
    }
    var ip := GetClientIp(req.forwardedFor, req.realIp);
    var rl := limiter.CheckRateLimit("vote:" + ip, VOTE_LIMIT, VOTE_WINDOW_MS, now);
    if !rl.ok {
      return TooMany("Too many requests. Please wait a moment.", rl.resetAt, now);
    }
    resp := Cast(db, user.value.id, body, now);
  }
}
