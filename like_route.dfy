/** `POST /api/polls/comments/like`: like, unlike or toggle a comment for
    the signed-in caller. The comment's like set and its counter move
    together, so the counter minus the set's size never changes. */
module LikeRoute {
  import opened Wrappers
  import opened Db
  import opened RateLimit
  import opened Auth
  import opened ClientIp
  import opened Http

  /** The JSON body: `commentId` and `action` are `None` when absent,
      `toggle` is whether the field is truthy. */
  datatype LikeBody = LikeBody(commentId: Option<string>, action: Option<string>, toggle: bool)

  datatype LikeReply = LikeReply(commentId: string, liked: bool, likes: int)

  /** What the handler does once every check passed. */
  datatype Action = ToggleLike | Like | Unlike

  /** `toggle || !action` toggles; otherwise "like" likes and any other
      action unlikes. */
  function Dispatch(body: LikeBody): (a: Action)
    ensures a == ToggleLike <==> body.toggle || body.action.None? || body.action == Some("")
    ensures a == Like <==> !body.toggle && body.action == Some("like")
  {
    if body.toggle || body.action.None? || body.action.value == "" then ToggleLike
    else if body.action.value == "like" then Like
    else Unlike
  }

  // ---------------------------------------------------------------------
  // The like state of the store and its transitions.

  /** The two parts of the store a like touches. */
  datatype LikeState = LikeState(comments: seq<Comment>, commentLikes: map<string, set<string>>)

  /** A comment's counter minus the size of its like set: what the store
      keeps fixed (at its seeded number of likes). */
  function Surplus(st: LikeState, j: nat): int
    requires j < |st.comments|
  {
    st.comments[j].likes - |LikesOf(st.commentLikes, st.comments[j].id)|
  }

  /** `likeComment` on the comment at `j`: adds `u` to its like set and
      raises its counter only when `u` was not in it. Nothing else
      changes, and the surplus is kept. */
  function Liked(st: LikeState, j: nat, u: string): (r: LikeState)
    requires j < |st.comments|
    ensures |r.comments| == |st.comments| && j < |r.comments|
    ensures r.comments[j] == st.comments[j].(likes := r.comments[j].likes)
    ensures forall i :: 0 <= i < |st.comments| && i != j ==> r.comments[i] == st.comments[i]
    ensures LikesOf(r.commentLikes, st.comments[j].id) == LikesOf(st.commentLikes, st.comments[j].id) + {u}
    ensures forall c :: c != st.comments[j].id ==> LikesOf(r.commentLikes, c) == LikesOf(st.commentLikes, c)
    ensures Surplus(r, j) == Surplus(st, j)
  {
    var id := st.comments[j].id;
    var s := LikesOf(st.commentLikes, id);
    if u in s then
      assert s + {u} == s;
      LikeState(st.comments, st.commentLikes[id := s])
    else
      assert |s + {u}| == |s| + 1;
      LikeState(st.comments[j := st.comments[j].(likes := st.comments[j].likes + 1)], st.commentLikes[id := s + {u}])
  }

  /** `unlikeComment` on the comment at `j`: removes `u` from its like set
      and lowers its counter (never below 0) only when `u` was in it. When
      the counter is at least the set's size, as on a valid store, the
      surplus is kept and the counter stays at least the set's size. */
  function Unliked(st: LikeState, j: nat, u: string): (r: LikeState)
    requires j < |st.comments|
    ensures |r.comments| == |st.comments| && j < |r.comments|
    ensures r.comments[j] == st.comments[j].(likes := r.comments[j].likes)
    ensures forall i :: 0 <= i < |st.comments| && i != j ==> r.comments[i] == st.comments[i]
    ensures LikesOf(r.commentLikes, st.comments[j].id) == LikesOf(st.commentLikes, st.comments[j].id) - {u}
    ensures forall c :: c != st.comments[j].id ==> LikesOf(r.commentLikes, c) == LikesOf(st.commentLikes, c)
    ensures Surplus(st, j) >= 0 ==> Surplus(r, j) == Surplus(st, j)
  {
    var id := st.comments[j].id;
    var s := LikesOf(st.commentLikes, id);
    if u in s then
      assert |s - {u}| == |s| - 1;
      LikeState(st.comments[j := st.comments[j].(likes := Max(0, st.comments[j].likes - 1))], st.commentLikes[id := s - {u}])
    else
      assert s - {u} == s;
      LikeState(st.comments, st.commentLikes[id := s])
  }

  /** `Liked` as the store's `likeComment` writes it: the set gains `u`
      and the counter rises when `u` was not in the set. */
  lemma LikedUpdate(st: LikeState, j: nat, u: string)
    requires j < |st.comments|
    ensures Liked(st, j, u) ==
      LikeState(if u in LikesOf(st.commentLikes, st.comments[j].id) then st.comments
                else st.comments[j := st.comments[j].(likes := st.comments[j].likes + 1)],
                st.commentLikes[st.comments[j].id := LikesOf(st.commentLikes, st.comments[j].id) + {u}])
  {
  }

  /** `Unliked` as the store's `unlikeComment` writes it. */
  lemma UnlikedUpdate(st: LikeState, j: nat, u: string)
    requires j < |st.comments|
    ensures Unliked(st, j, u) ==
      LikeState(if u in LikesOf(st.commentLikes, st.comments[j].id)
                then st.comments[j := st.comments[j].(likes := Max(0, st.comments[j].likes - 1))]
                else st.comments,
                st.commentLikes[st.comments[j].id := LikesOf(st.commentLikes, st.comments[j].id) - {u}])
  {
  }

  /** The toggle: unlike when `u` already likes the comment, like otherwise. */
  function Toggled(st: LikeState, j: nat, u: string): (r: LikeState)
    requires j < |st.comments|
    ensures |r.comments| == |st.comments|
    ensures u in LikesOf(r.commentLikes, st.comments[j].id) <==> u !in LikesOf(st.commentLikes, st.comments[j].id)
  {
    if u in LikesOf(st.commentLikes, st.comments[j].id) then Unliked(st, j, u) else Liked(st, j, u)
  }

  /** The state after the dispatched action. */
  function Applied(a: Action, st: LikeState, j: nat, u: string): (r: LikeState)
    requires j < |st.comments|
    ensures |r.comments| == |st.comments|
  {
    match a
    case ToggleLike => Toggled(st, j, u)
    case Like => Liked(st, j, u)
    case Unlike => Unliked(st, j, u)
  }

  /** The like state two states share when they agree on every like set
      and every comment. */
  ghost predicate SameLikes(a: LikeState, b: LikeState) {
    a.comments == b.comments && forall c :: LikesOf(a.commentLikes, c) == LikesOf(b.commentLikes, c)
  }

  /** Liking twice is liking once. */
  lemma LikeIdempotent(st: LikeState, j: nat, u: string)
    requires j < |st.comments|
    ensures SameLikes(Liked(Liked(st, j, u), j, u), Liked(st, j, u))
  {
    var once := Liked(st, j, u);
    var twice := Liked(once, j, u);
    assert u in LikesOf(once.commentLikes, once.comments[j].id);
    assert twice.comments == once.comments;
  }

  /** Two toggles in a row restore the comment's counter and every like
      set, provided the counter covers the like set (true of every
      comment `find` reaches in a valid store). */
  lemma ToggleTwice(st: LikeState, j: nat, u: string)
    requires j < |st.comments|
    requires st.comments[j].likes >= |LikesOf(st.commentLikes, st.comments[j].id)|
    ensures SameLikes(Toggled(Toggled(st, j, u), j, u), st)
  {
    var id := st.comments[j].id;
    var s := LikesOf(st.commentLikes, id);
    var once := Toggled(st, j, u);
    var twice := Toggled(once, j, u);
    assert once.comments[j].id == id;
    if u in s {
      assert |s| >= 1;
      assert once == Unliked(st, j, u);
      assert twice == Liked(once, j, u);
      assert (s - {u}) + {u} == s;
    } else {
      assert once == Liked(st, j, u);
      assert twice == Unliked(once, j, u);
      assert (s + {u}) - {u} == s;
    }
    assert twice.comments[j] == st.comments[j];
    assert twice.comments == st.comments;
  }

  // ---------------------------------------------------------------------
  // The handler.

  const LIKE_LIMIT: int := 20
  const LIKE_WINDOW_MS: int := 60000

  /** Filling in a missing like set with the empty one, as the store's
      reads do, changes neither transition. */
  lemma LazySetForgotten(st: LikeState, j: nat, u: string)
    requires j < |st.comments|
    ensures var id := st.comments[j].id;
      var st' := LikeState(st.comments, st.commentLikes[id := LikesOf(st.commentLikes, id)]);
      Liked(st', j, u) == Liked(st, j, u) && Unliked(st', j, u) == Unliked(st, j, u)
  {
    var id := st.comments[j].id;
    var st' := LikeState(st.comments, st.commentLikes[id := LikesOf(st.commentLikes, id)]);
    LikedUpdate(st, j, u);
    LikedUpdate(st', j, u);
    UnlikedUpdate(st, j, u);
    UnlikedUpdate(st', j, u);
    assert st'.commentLikes[id := LikesOf(st.commentLikes, id) + {u}] == st.commentLikes[id := LikesOf(st.commentLikes, id) + {u}];
    assert st'.commentLikes[id := LikesOf(st.commentLikes, id) - {u}] == st.commentLikes[id := LikesOf(st.commentLikes, id) - {u}];
  }

  /** `likeComment` on the comment at `j` performs `Liked`. */
  method DoLike(db: Store, commentId: string, j: nat, userId: string) returns (likes: int)
    requires GetCommentById(db.comments, commentId) == Some(j)
    modifies db`comments, db`commentLikes
    ensures var st := Liked(LikeState(old(db.comments), old(db.commentLikes)), j, userId);
      db.comments == st.comments && db.commentLikes == st.commentLikes && likes == db.comments[j].likes
    ensures old(db.Valid()) ==> db.Valid()
  {
    LikedUpdate(LikeState(db.comments, db.commentLikes), j, userId);
    var r := db.LikeComment(commentId, userId);
    likes := r.value;
  }

  /** `unlikeComment` on the comment at `j` performs `Unliked`. */
  method DoUnlike(db: Store, commentId: string, j: nat, userId: string) returns (likes: int)
    requires GetCommentById(db.comments, commentId) == Some(j)
    modifies db`comments, db`commentLikes
    ensures var st := Unliked(LikeState(old(db.comments), old(db.commentLikes)), j, userId);
      db.comments == st.comments && db.commentLikes == st.commentLikes && likes == db.comments[j].likes
    ensures old(db.Valid()) ==> db.Valid()
  {
    UnlikedUpdate(LikeState(db.comments, db.commentLikes), j, userId);
    var r := db.UnlikeComment(commentId, userId);
    likes := r.value;
  }

  /** The dispatched action on the store's comment `j`, answering the
      caller's membership and the counter afterwards. */
  method Perform(db: Store, a: Action, commentId: string, j: nat, userId: string) returns (reply: LikeReply)
    requires GetCommentById(db.comments, commentId) == Some(j)
    modifies db`comments, db`commentLikes
    ensures var st := Applied(a, LikeState(old(db.comments), old(db.commentLikes)), j, userId);
      && db.comments == st.comments && db.commentLikes == st.commentLikes
      && reply == LikeReply(commentId, userId in LikesOf(db.commentLikes, commentId), db.comments[j].likes)
    ensures old(db.Valid()) ==> db.Valid()
  {
    ghost var st := LikeState(db.comments, db.commentLikes);
    var act := a;
    if act == ToggleLike {
      var liked := db.HasUserLikedComment(commentId, userId);
      LazySetForgotten(st, j, userId);
      act := if liked then Unlike else Like;
    }
    var likes: int;
    if act == Like {
      likes := DoLike(db, commentId, j, userId);
    } else {
      likes := DoUnlike(db, commentId, j, userId);
    }
    reply := LikeReply(commentId, act == Like, likes);
  }

  /** `POST(req)`: 400 without a comment id, 401 for an anonymous caller,
      404 for an unknown comment, all before anything is touched; then the
      limiter (`like:` + client address, 20 per minute), whose refusal
      answers 429 and changes no like; otherwise the dispatched action. */
  method Post(db: Store, limiter: Limiter, P: Primitives, req: Request, body: LikeBody, now: int)
    returns (resp: Response<LikeReply>)
    modifies db`comments, db`commentLikes, limiter
    ensures body.commentId.None? || body.commentId == Some("") ==>
      resp == Error(400, "commentId is required") && limiter.store == old(limiter.store)
    ensures var user := CurrentUser(P, old(db.users), req.authorization, req.cookie);
      body.commentId.Some? && body.commentId.value != "" && user.None? ==>
        resp == Error(401, "Unauthorized") && limiter.store == old(limiter.store)
    ensures var user := CurrentUser(P, old(db.users), req.authorization, req.cookie);
      body.commentId.Some? && body.commentId.value != "" && user.Some? &&
      GetCommentById(old(db.comments), body.commentId.value).None? ==>
        resp == Error(404, "Comment not found") && limiter.store == old(limiter.store)
    ensures resp.status in {400, 401, 404, 429} ==>
      db.comments == old(db.comments) && db.commentLikes == old(db.commentLikes)
    ensures var user := CurrentUser(P, old(db.users), req.authorization, req.cookie);
      var rl := Check(old(limiter.store), "like:" + GetClientIp(req.forwardedFor, req.realIp), LIKE_LIMIT, LIKE_WINDOW_MS, now);
      body.commentId.Some? && body.commentId.value != "" && user.Some? &&
      GetCommentById(old(db.comments), body.commentId.value).Some? ==>
        && limiter.store == rl.1
        && (!rl.0.ok ==> resp == TooMany("Rate limit exceeded. Try again soon.", rl.0.resetAt, now))
        && (rl.0.ok ==>
              var j := GetCommentById(old(db.comments), body.commentId.value).value;
              var st := Applied(Dispatch(body), LikeState(old(db.comments), old(db.commentLikes)), j, user.value.id);
              && db.comments == st.comments && db.commentLikes == st.commentLikes
              && resp == Json(200, LikeReply(body.commentId.value,
                                             user.value.id in LikesOf(db.commentLikes, body.commentId.value),
                                             db.comments[j].likes)))
    ensures old(db.Valid()) ==> db.Valid()
  {
    if body.commentId.None? || body.commentId.value == "" {
      return Error(400, "commentId is required");
    }
    var commentId := body.commentId.value;
    var user := CurrentUser(P, db.users, req.authorization, req.cookie);
    if user.None? {
      return Error(401, "Unauthorized");
    }
    var found := GetCommentById(db.comments, commentId);
    if found.None? {
      return Error(404, "Comment not found");
    }
    var ip := GetClientIp(req.forwardedFor, req.realIp);
    var rl := limiter.CheckRateLimit("like:" + ip, LIKE_LIMIT, LIKE_WINDOW_MS, now);
    if !rl.ok {
      return TooMany("Rate limit exceeded. Try again soon.", rl.resetAt, now);
    }
    var reply := Perform(db, Dispatch(body), commentId, found.value, user.value.id);
    resp := Json(200, reply);
  }
}
