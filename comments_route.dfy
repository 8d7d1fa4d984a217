/** `/api/polls/comments`: `GET` lists a page of a poll's comments with the
    viewer's like flag, `POST` adds a comment. A comment is trimmed,
    bounded in length and checked against a list of banned words; only a
    signed-in user who voted on the poll may post, and the limiter charges
    only requests that pass every other check. */
module CommentsRoute {
  import opened Wrappers
  import opened Strings
  import opened Db
  import opened RateLimit
  import opened Auth
  import opened ClientIp
  import opened Http

  // ---------------------------------------------------------------------
  // The text checks.

  /** The banned words, already in lower case. */
  const BANNED: seq<string> := ["damn", "hell", "shit", "fuck", "bitch", "asshole"]

  const MAX_LEN: nat := 500
  const MIN_LEN: nat := 3

  /** `words.some(w => lower.includes(w))`. */
  function AnyContained(lower: string, words: seq<string>): (b: bool)
    ensures b <==> exists i :: 0 <= i < |words| && Contains(lower, words[i])
  {
    if words == [] then false
    else
      assert forall i :: 1 <= i < |words| ==> words[i] == words[1..][i - 1];
      Contains(lower, words[0]) || AnyContained(lower, words[1..])
  }

  /** `containsProfanity`: the lower-cased text contains a banned word
      anywhere, even inside a longer word. */
  function ContainsProfanity(input: string): (b: bool)
    ensures b <==> exists i :: 0 <= i < |BANNED| && Contains(ToLower(input), BANNED[i])
  {
    AnyContained(ToLower(input), BANNED)
  }

  /** The filter works on substrings: "hello" is refused because of "hell". */
  lemma HelloIsFiltered()
    ensures ContainsProfanity("hello")
  {
    var lower := ToLower("hello");
    assert lower == "hello";
    ContainsAt(lower, "hell", 0);
    assert BANNED[1] == "hell";
  }

  lemma LowerIdempotent(s: string)
    ensures ToLower(ToLower(s)) == ToLower(s)
  {
    var t := ToLower(s);
    assert forall i :: 0 <= i < |s| ==> LowerChar(t[i]) == t[i];
  }

  /** The filter ignores case: a text and its lower-cased form are judged alike. */
  lemma ProfanityIgnoresCase(s: string)
    ensures ContainsProfanity(ToLower(s)) == ContainsProfanity(s)
  {
    LowerIdempotent(s);
  }

  // ---------------------------------------------------------------------
  // `POST`.

  /** The JSON body: `pollId` is `None` when absent or not a string, `text`
      when it is not a string. */
  datatype CommentBody = CommentBody(pollId: Option<string>, text: Option<string>)

  /** The comment as answered: the stored comment plus the viewer's flag. */
  datatype CommentView = CommentView(comment: Comment, likedByMe: bool)

  /** Where the checks before the limiter end: a refusal with its status
      and message, or the poll and the cleaned text they let through. */
  datatype Verdict = Refused(status: int, message: string) | Admit(pollId: string, clean: string)

  const TOO_SHORT := "Comment is too short (min " + NatToString(MIN_LEN) + " chars)"
  const TOO_LONG := "Comment is too long (max " + NatToString(MAX_LEN) + " chars)"
  const UNCIVIL := "Please keep the conversation civil (profanity filtered)"

  /** The checks on the body alone: both fields present, then the length
      of the trimmed text, then the banned words. Text that passes is the
      trimmed input, between 3 and 500 UTF-16 code units long, free of banned words. */
  function CheckBody(body: CommentBody): (v: Verdict)
    ensures v.Admit? ==>
      && body.pollId == Some(v.pollId) && v.pollId != ""
      && body.text.Some? && v.clean == Trim(body.text.value)
      && MIN_LEN <= Utf16Length(v.clean) <= MAX_LEN && !ContainsProfanity(v.clean)
    ensures v.Refused? ==> v.status == 400
    ensures v.Refused? <==>
      body.pollId.None? || body.pollId == Some("") || body.text.None? ||
      Utf16Length(Trim(body.text.value)) < MIN_LEN || Utf16Length(Trim(body.text.value)) > MAX_LEN || ContainsProfanity(Trim(body.text.value))
  {
    if body.pollId.None? || body.pollId.value == "" || body.text.None? then
      Refused(400, "pollId and text are required")
    else
      var clean := Trim(body.text.value);
      if Utf16Length(clean) < MIN_LEN then Refused(400, TOO_SHORT)
      else if Utf16Length(clean) > MAX_LEN then Refused(400, TOO_LONG)
      else if ContainsProfanity(clean) then Refused(400, UNCIVIL)
      else Admit(body.pollId.value, clean)
  }

  /** Both fields present and a clean text: the body checks let it through. */
  lemma BodyAdmitted(body: CommentBody)
    requires body.pollId.Some? && body.pollId.value != "" && body.text.Some?
    requires MIN_LEN <= Utf16Length(Trim(body.text.value)) <= MAX_LEN && !ContainsProfanity(Trim(body.text.value))
    ensures CheckBody(body) == Admit(body.pollId.value, Trim(body.text.value))
  {
  }

  /** The checks of `POST` up to the limiter, in the handler's order: the
      body, then the poll, the caller, the caller's vote. Only a signed-in
      user who voted on an existing poll gets through, with the text
      `CheckBody` cleaned. */
  function Screen(polls: seq<Poll>, votesByPoll: map<string, map<string, seq<string>>>,
                  user: Option<User>, body: CommentBody): (v: Verdict)
    ensures CheckBody(body).Refused? ==> v == CheckBody(body)
    ensures v.Admit? ==>
      && v == CheckBody(body)
      && GetPollById(polls, v.pollId).Some?
      && user.Some? && user.value.id in VotesOf(votesByPoll, v.pollId)
    ensures v.Refused? && v.status == 401 ==> user.None?
    ensures v.Refused? ==> v.status in {400, 401, 403, 404}
  {
    match CheckBody(body)
    case Refused(_, _) => CheckBody(body)
    case Admit(pollId, clean) =>
      if GetPollById(polls, pollId).None? then Refused(404, "Poll not found")
      else if user.None? then Refused(401, "Unauthorized")
      else if user.value.id !in VotesOf(votesByPoll, pollId) then Refused(403, "You must vote before commenting.")
      else Admit(pollId, clean)
  }

  /** An anonymous caller with a clean comment on an existing poll is
      turned away with 401. */
  lemma SignInRequired(polls: seq<Poll>, votesByPoll: map<string, map<string, seq<string>>>, body: CommentBody)
    requires CheckBody(body).Admit? && GetPollById(polls, body.pollId.value).Some?
    ensures Screen(polls, votesByPoll, None, body) == Refused(401, "Unauthorized")
  {
  }

  /** A signed-in caller with a clean comment on an existing poll who has
      not voted on it is turned away with 403. */
  lemma VoteRequired(polls: seq<Poll>, votesByPoll: map<string, map<string, seq<string>>>, user: User,
                     body: CommentBody)
    requires CheckBody(body).Admit? && GetPollById(polls, body.pollId.value).Some?
    requires user.id !in VotesOf(votesByPoll, body.pollId.value)
    ensures Screen(polls, votesByPoll, Some(user), body) == Refused(403, "You must vote before commenting.")
  {
  }

  /** The text is judged before anything else is looked at: a text that
      fails the length or word checks gets the same 400 whatever the
      store and whoever the caller. */
  lemma TextChecksFirst(polls: seq<Poll>, votesByPoll: map<string, map<string, seq<string>>>, user: Option<User>,
                        polls': seq<Poll>, votesByPoll': map<string, map<string, seq<string>>>, user': Option<User>,
                        body: CommentBody)
    requires body.text.Some?
    requires var clean := Trim(body.text.value);
      Utf16Length(clean) < MIN_LEN || Utf16Length(clean) > MAX_LEN || ContainsProfanity(clean)
    ensures Screen(polls, votesByPoll, user, body) == Screen(polls', votesByPoll', user', body)
    ensures Screen(polls, votesByPoll, user, body).status == 400
  {
  }

  /** An unknown poll is reported (404) before the caller is looked at. */
  lemma PollBeforeCaller(polls: seq<Poll>, votesByPoll: map<string, map<string, seq<string>>>,
                         user: Option<User>, body: CommentBody)
    requires body.pollId.Some? && body.pollId.value != "" && body.text.Some?
    requires var clean := Trim(body.text.value);
      MIN_LEN <= Utf16Length(clean) <= MAX_LEN && !ContainsProfanity(clean)
    requires GetPollById(polls, body.pollId.value).None?
    ensures Screen(polls, votesByPoll, user, body) == Refused(404, "Poll not found")
  {
    BodyAdmitted(body);
  }

  /** The converse of `Screen`'s promise: clean text from a voter on an
      existing poll always gets through to the limiter. */
  lemma VoterAdmitted(polls: seq<Poll>, votesByPoll: map<string, map<string, seq<string>>>,
                      user: User, pollId: string, text: string)
    requires pollId != "" && GetPollById(polls, pollId).Some?
    requires MIN_LEN <= Utf16Length(Trim(text)) <= MAX_LEN && !ContainsProfanity(Trim(text))
    requires user.id in VotesOf(votesByPoll, pollId)
    ensures Screen(polls, votesByPoll, Some(user), CommentBody(Some(pollId), Some(text))) == Admit(pollId, Trim(text))
  {
    BodyAdmitted(CommentBody(Some(pollId), Some(text)));
  }

  /** `user.email.split("@")[0]`: the email up to its first "@", or all of
      it when there is none. */
  function Author(email: string): (a: string)
    ensures a <= email && '@' !in a
    ensures |a| == |email| || email[|a|] == '@'
  {
    SplitFirst(email, '@');
    Split(email, '@')[0]
  }

  const COMMENT_LIMIT: int := 5
  const COMMENT_WINDOW_MS: int := 60000

  /** The end of `POST` for a signed-in caller on an existing poll: 403
      unless the caller voted on it, then the limiter on `key`, then the
      append. */
  method Submit(db: Store, limiter: Limiter, user: User, pollId: string, clean: string, key: string,
                newId: string, now: int)
    returns (resp: Response<CommentView>)
    modifies db`comments, db`baseLikes, db`votesByPoll, limiter
    ensures user.id !in VotesOf(old(db.votesByPoll), pollId) ==>
      resp == Error(403, "You must vote before commenting.") &&
      limiter.store == old(limiter.store) && db.comments == old(db.comments)
    ensures user.id in VotesOf(old(db.votesByPoll), pollId) ==>
      limiter.store == Check(old(limiter.store), key, COMMENT_LIMIT, COMMENT_WINDOW_MS, now).1
    ensures var rl := Check(old(limiter.store), key, COMMENT_LIMIT, COMMENT_WINDOW_MS, now).0;
      user.id in VotesOf(old(db.votesByPoll), pollId) && !rl.ok ==>
        resp == TooMany("Rate limit exceeded. Try again soon.", rl.resetAt, now) && db.comments == old(db.comments)
    ensures var rl := Check(old(limiter.store), key, COMMENT_LIMIT, COMMENT_WINDOW_MS, now).0;
      user.id in VotesOf(old(db.votesByPoll), pollId) && rl.ok ==>
        var c := Comment(newId, pollId, user.id, Author(user.email), clean, now, 0);
        resp == Json(201, CommentView(c, false)) && db.comments == old(db.comments) + [c]
    ensures forall q :: VotesOf(db.votesByPoll, q) == VotesOf(old(db.votesByPoll), q)
    ensures old(db.Valid()) ==> db.Valid()
  {
    var voted := db.HasUserVoted(pollId, user.id);
    if !voted {
      return Error(403, "You must vote before commenting.");
    }
    var rl := limiter.CheckRateLimit(key, COMMENT_LIMIT, COMMENT_WINDOW_MS, now);
    if !rl.ok {
      return TooMany("Rate limit exceeded. Try again soon.", rl.resetAt, now);
    }
    var author := Author(user.email);
    var comment := db.AddComment(pollId, user.id, author, clean, newId, now);
    resp := Json(201, CommentView(comment, false));
  }

  /** `POST(req)`, with `newId` the next uuid and `now` the clock. A refusal
      by `Screen` answers its status and message and charges nothing;
      otherwise the limiter is charged (`comment:` + client address, 5 per
      minute), a refusal answers 429 with `Retry-After`, and an admitted
      comment is appended with no likes and answered with 201. Nothing else
      in the store changes, and a valid store stays valid. */
  method Post(db: Store, limiter: Limiter, P: Primitives, req: Request, body: CommentBody, newId: string, now: int)
    returns (resp: Response<CommentView>)
    modifies db`comments, db`baseLikes, db`votesByPoll, limiter
    ensures var v := Screen(old(db.polls), old(db.votesByPoll), CurrentUser(P, old(db.users), req.authorization, req.cookie), body);
      v.Refused? ==> resp == Error(v.status, v.message) && limiter.store == old(limiter.store) && db.comments == old(db.comments)
    ensures Screen(old(db.polls), old(db.votesByPoll), CurrentUser(P, old(db.users), req.authorization, req.cookie), body).Admit? ==>
      limiter.store == Check(old(limiter.store), "comment:" + GetClientIp(req.forwardedFor, req.realIp),
                             COMMENT_LIMIT, COMMENT_WINDOW_MS, now).1
    ensures var rl := Check(old(limiter.store), "comment:" + GetClientIp(req.forwardedFor, req.realIp),
                            COMMENT_LIMIT, COMMENT_WINDOW_MS, now).0;
      Screen(old(db.polls), old(db.votesByPoll), CurrentUser(P, old(db.users), req.authorization, req.cookie), body).Admit? && !rl.ok ==>
        resp == TooMany("Rate limit exceeded. Try again soon.", rl.resetAt, now) && db.comments == old(db.comments)
    ensures var user := CurrentUser(P, old(db.users), req.authorization, req.cookie);
      var v := Screen(old(db.polls), old(db.votesByPoll), user, body);
      var rl := Check(old(limiter.store), "comment:" + GetClientIp(req.forwardedFor, req.realIp),
                      COMMENT_LIMIT, COMMENT_WINDOW_MS, now).0;
      v.Admit? && rl.ok ==>
        var c := Comment(newId, v.pollId, user.value.id, Author(user.value.email), v.clean, now, 0);
        resp == Json(201, CommentView(c, false)) && db.comments == old(db.comments) + [c]
    ensures forall q :: VotesOf(db.votesByPoll, q) == VotesOf(old(db.votesByPoll), q)
    ensures old(db.Valid()) ==> db.Valid()
  {
    var checked := CheckBody(body);
    if checked.Refused? {
      return Error(checked.status, checked.message);
    }
    var pollId, clean := checked.pollId, checked.clean;
    var poll := GetPollById(db.polls, pollId);
    if poll.None? {
      return Error(404, "Poll not found");
    }
    var user := CurrentUser(P, db.users, req.authorization, req.cookie);
    if user.None? {
      return Error(401, "Unauthorized");
    }
    var ip := GetClientIp(req.forwardedFor, req.realIp);
    resp := Submit(db, limiter, user.value, pollId, clean, "comment:" + ip, newId, now);
  }

  // ---------------------------------------------------------------------
  // `GET`.

  /** The query string: each parameter `None` when absent or empty;
      `offset` and `limit` already read as numbers. */
  datatype CommentQuery = CommentQuery(pollId: Option<string>, sort: Option<string>, offset: Option<int>, limit: Option<int>)

  datatype Listing = Listing(total: nat, comments: seq<CommentView>)

  /** `sort` defaults to "newest". */
  function SortParam(sort: Option<string>): (s: string)
    ensures sort.None? ==> s == "newest"
    ensures sort.Some? ==> s == sort.value
  {
    sort.GetOr("newest")
  }

  /** `limit` defaults to 5 and is clamped to [1, 50]. */
  function LimitParam(limit: Option<int>): (n: int)
    ensures 1 <= n <= 50
    ensures limit.None? ==> n == 5
    ensures limit.Some? && 1 <= limit.value <= 50 ==> n == limit.value
    ensures limit.Some? && limit.value < 1 ==> n == 1
    ensures limit.Some? && limit.value > 50 ==> n == 50
  {
    Min(50, Max(1, limit.GetOr(5)))
  }

  /** The comments of a page with the viewer's flag: false for an
      anonymous viewer, membership in the comment's like set otherwise. */
  function Annotated(items: seq<Comment>, commentLikes: map<string, set<string>>, viewer: Option<User>)
    : (views: seq<CommentView>)
    ensures |views| == |items|
    ensures forall i :: 0 <= i < |items| ==> views[i].comment == items[i]
    ensures forall i :: 0 <= i < |items| ==>
      (views[i].likedByMe <==> viewer.Some? && viewer.value.id in LikesOf(commentLikes, items[i].id))
  {
    seq(|items|, i requires 0 <= i < |items| =>
      CommentView(items[i], viewer.Some? && viewer.value.id in LikesOf(commentLikes, items[i].id)))
  }

  /** The `likedByMe` loop: looks up each comment's like set (creating
      the empty ones it lacks) only when there is a viewer. */
  method AnnotatePage(db: Store, items: seq<Comment>, viewer: Option<User>) returns (views: seq<CommentView>)
    modifies db`commentLikes
    ensures views == Annotated(items, old(db.commentLikes), viewer)
    ensures forall c :: LikesOf(db.commentLikes, c) == LikesOf(old(db.commentLikes), c)
    ensures old(db.Valid()) ==> db.Valid()
  {
    ghost var spec := Annotated(items, db.commentLikes, viewer);
    views := [];
    for i := 0 to |items|
      invariant views == spec[..i]
      invariant forall c :: LikesOf(db.commentLikes, c) == LikesOf(old(db.commentLikes), c)
      invariant old(db.Valid()) ==> db.Valid()
    {
      var liked := false;
      if viewer.Some? {
        liked := db.HasUserLikedComment(items[i].id, viewer.value.id);
      }
      views := views + [CommentView(items[i], liked)];
    }
    assert spec[..|items|] == spec;
  }

  /** `GET(req)`: 400 without a poll id, 404 for an unknown poll;
      otherwise the paginated comments with `total`, each annotated for
      the viewer. Only the lazily created like sets change. */
  method Get(db: Store, P: Primitives, req: Request, query: CommentQuery) returns (resp: Response<Listing>)
    modifies db`commentLikes
    ensures query.pollId.None? || query.pollId == Some("") ==> resp == Error(400, "pollId required")
    ensures query.pollId.Some? && query.pollId.value != "" && GetPollById(db.polls, query.pollId.value).None? ==>
      resp == Error(404, "Poll not found")
    ensures query.pollId.Some? && query.pollId.value != "" && GetPollById(db.polls, query.pollId.value).Some? ==>
      var page := GetCommentsPaginated(db.comments, query.pollId.value, SortParam(query.sort),
                                       query.offset.GetOr(0), LimitParam(query.limit));
      resp == Json(200, Listing(page.total, Annotated(page.items, old(db.commentLikes),
                                                      CurrentUser(P, db.users, req.authorization, req.cookie))))
    ensures forall c :: LikesOf(db.commentLikes, c) == LikesOf(old(db.commentLikes), c)
    ensures old(db.Valid()) ==> db.Valid()
  {
    var sort := SortParam(query.sort);
    var offset := query.offset.GetOr(0);
    var limit := LimitParam(query.limit);
    if query.pollId.None? || query.pollId.value == "" {
      return Error(400, "pollId required");
    }
    var pollId := query.pollId.value;
    var poll := GetPollById(db.polls, pollId);
    if poll.None? {
      return Error(404, "Poll not found");
    }
    var page := GetCommentsPaginated(db.comments, pollId, sort, offset, limit);
    var user := CurrentUser(P, db.users, req.authorization, req.cookie);
    ghost var spec := Annotated(page.items, db.commentLikes, user);
    var views := AnnotatePage(db, page.items, user);
    resp := Json(200, Listing(page.total, views));
  }
}
