/** The in-memory store of lib/server/db.ts: users, polls, comments, the
    per-poll map of each user's current selection and the per-comment set
    of users who liked it. */
module Db {
  import opened Wrappers
  import opened Strings

  datatype Role = AdminRole | UserRole

  datatype User = User(id: string, email: string, passwordHash: string, salt: string, role: Role, createdAt: int)

  datatype PollOption = PollOption(id: string, text: string, votes: int)

  datatype PollType = SingleChoice | MultiSelect

  /** Instants (`startDate`, `endDate`, `createdAt`) are milliseconds
      since the epoch. */
  datatype Poll = Poll(id: string, question: string, options: seq<PollOption>, startDate: int, endDate: int,
                       kind: PollType, categories: seq<string>, createdAt: int)

  datatype Comment = Comment(id: string, pollId: string, userId: string, author: string, text: string,
                             createdAt: int, likes: int)

  datatype Page = Page(total: nat, items: seq<Comment>)

  const HOUR_MS := 3600 * 1000
  const DAY_MS := 24 * HOUR_MS

  /** `hashPassword`: SHA-256 of the password followed by the salt. */
  function HashPassword(sha256: string -> string, password: string, salt: string): string {
    sha256(password + salt)
  }

  // ---------------------------------------------------------------------
  // Lookups: `Array.prototype.find` returns the first match.

  function FirstIndex<T>(s: seq<T>, p: T -> bool): (r: Option<nat>)
    ensures r.Some? ==> r.value < |s| && p(s[r.value]) && forall j :: 0 <= j < r.value ==> !p(s[j])
    ensures r.None? ==> forall j :: 0 <= j < |s| ==> !p(s[j])
  {
    if s == [] then None
    else if p(s[0]) then Some(0)
    else match FirstIndex(s[1..], p)
      case None => None
      case Some(k) => Some(k + 1)
  }

  /** Email comparison of createUser and findUserByEmail: equal after
      lower-casing. */
  predicate SameEmail(a: string, b: string) {
    ToLower(a) == ToLower(b)
  }

  function FindUserByEmail(users: seq<User>, email: string): (r: Option<User>)
    ensures r.None? <==> forall i :: 0 <= i < |users| ==> !SameEmail(users[i].email, email)
    ensures r.Some? ==> exists i :: 0 <= i < |users| && users[i] == r.value && SameEmail(r.value.email, email)
                                    && forall j :: 0 <= j < i ==> !SameEmail(users[j].email, email)
  {
    match FirstIndex(users, (u: User) => SameEmail(u.email, email))
    case None => None
    case Some(i) => Some(users[i])
  }

  function FindUserById(users: seq<User>, id: string): (r: Option<User>)
    ensures r.None? <==> forall i :: 0 <= i < |users| ==> users[i].id != id
    ensures r.Some? ==> exists i :: 0 <= i < |users| && users[i] == r.value && r.value.id == id
                                    && forall j :: 0 <= j < i ==> users[j].id != id
  {
    match FirstIndex(users, (u: User) => u.id == id)
    case None => None
    case Some(i) => Some(users[i])
  }

  predicate FirstPollWithId(polls: seq<Poll>, i: int)
    requires 0 <= i < |polls|
  {
    forall j :: 0 <= j < i ==> polls[j].id != polls[i].id
  }

  /** `getPollById`, giving the position of the poll object it returns. */
  function GetPollById(polls: seq<Poll>, pollId: string): (r: Option<nat>)
    ensures r.Some? ==> r.value < |polls| && polls[r.value].id == pollId && FirstPollWithId(polls, r.value)
    ensures r.None? <==> forall i :: 0 <= i < |polls| ==> polls[i].id != pollId
  {
    FirstIndex(polls, (p: Poll) => p.id == pollId)
  }

  function PollIds(polls: seq<Poll>): set<string> {
    set i | 0 <= i < |polls| :: polls[i].id
  }

  lemma PollIdsAppend(polls: seq<Poll>, p: Poll)
    ensures PollIds(polls + [p]) == PollIds(polls) + {p.id}
  {
    var all := polls + [p];
    assert all[|polls|] == p;
    forall x | x in PollIds(all) ensures x in PollIds(polls) + {p.id} {
      var i :| 0 <= i < |all| && all[i].id == x;
      if i < |polls| { assert polls[i] == all[i]; }
    }
    forall x | x in PollIds(polls) ensures x in PollIds(all) {
      var i :| 0 <= i < |polls| && polls[i].id == x;
      assert all[i] == polls[i];
    }
  }

  predicate FirstCommentWithId(comments: seq<Comment>, i: int)
    requires 0 <= i < |comments|
  {
    forall j :: 0 <= j < i ==> comments[j].id != comments[i].id
  }

  /** `getCommentById`, giving the position of the comment object it returns. */
  function GetCommentById(comments: seq<Comment>, commentId: string): (r: Option<nat>)
    ensures r.Some? ==> r.value < |comments| && comments[r.value].id == commentId && FirstCommentWithId(comments, r.value)
    ensures r.None? <==> forall i :: 0 <= i < |comments| ==> comments[i].id != commentId
  {
    FirstIndex(comments, (c: Comment) => c.id == commentId)
  }

  function CommentIds(comments: seq<Comment>): set<string> {
    set i | 0 <= i < |comments| :: comments[i].id
  }

  lemma CommentIdsAppend(comments: seq<Comment>, c: Comment)
    ensures CommentIds(comments + [c]) == CommentIds(comments) + {c.id}
  {
    var all := comments + [c];
    assert all[|comments|] == c;
    forall x | x in CommentIds(all) ensures x in CommentIds(comments) + {c.id} {
      var i :| 0 <= i < |all| && all[i].id == x;
      if i < |comments| { assert comments[i] == all[i]; }
    }
    forall x | x in CommentIds(comments) ensures x in CommentIds(all) {
      var i :| 0 <= i < |comments| && comments[i].id == x;
      assert all[i] == comments[i];
    }
  }

  predicate FirstOptionWithId(options: seq<PollOption>, k: int)
    requires 0 <= k < |options|
  {
    forall j :: 0 <= j < k ==> options[j].id != options[k].id
  }

  /** `poll.options.find((o) => o.id === id)`, as a position. */
  function FindOption(options: seq<PollOption>, id: string): (r: Option<nat>)
    ensures r.Some? ==> r.value < |options| && options[r.value].id == id && FirstOptionWithId(options, r.value)
    ensures r.None? <==> forall k :: 0 <= k < |options| ==> options[k].id != id
  {
    FirstIndex(options, (o: PollOption) => o.id == id)
  }

  // ---------------------------------------------------------------------
  // Vote counters.

  /** Option lists that differ at most in their counters. */
  predicate SameOptionShape(a: seq<PollOption>, b: seq<PollOption>) {
    |a| == |b| && forall k :: 0 <= k < |a| ==> a[k].id == b[k].id && a[k].text == b[k].text
  }

  /** How many of `ids` land on option `k`: increment and decrement reach
      only the first option carrying an id, once per occurrence. */
  function Hits(options: seq<PollOption>, k: int, ids: seq<string>): nat
    requires 0 <= k < |options|
  {
    if FirstOptionWithId(options, k) then multiset(ids)[options[k].id] else 0
  }

  /** `after` is `before` with every option in `ids` raised by one per occurrence. */
  predicate Incremented(before: seq<PollOption>, after: seq<PollOption>, ids: seq<string>) {
    SameOptionShape(before, after)
    && forall k :: 0 <= k < |before| ==> after[k].votes == before[k].votes + Hits(before, k, ids)
  }

  /** `after` is `before` with every option in `ids` lowered by one per
      occurrence, but never below 0 (the `Math.max(0, ...)` clamp, applied
      at each step, so an option no id reaches keeps its counter). */
  predicate Decremented(before: seq<PollOption>, after: seq<PollOption>, ids: seq<string>) {
    SameOptionShape(before, after)
    && forall k :: 0 <= k < |before| ==>
         after[k].votes == if Hits(before, k, ids) == 0 then before[k].votes else Max(0, before[k].votes - Hits(before, k, ids))
  }

  lemma SameShapeSameFirst(a: seq<PollOption>, b: seq<PollOption>, k: int)
    requires SameOptionShape(a, b) && 0 <= k < |a|
    ensures FirstOptionWithId(a, k) == FirstOptionWithId(b, k)
    ensures forall ids :: Hits(a, k, ids) == Hits(b, k, ids)
  {
  }

  /** The selection recorded for a poll, absent polls reading as empty
      (what the lazily created map of getVoteMap holds). */
  function VotesOf(votesByPoll: map<string, map<string, seq<string>>>, pollId: string): map<string, seq<string>> {
    if pollId in votesByPoll then votesByPoll[pollId] else map[]
  }

  /** The set of users who liked a comment, as getLikeSet sees it. */
  function LikesOf(commentLikes: map<string, set<string>>, commentId: string): set<string> {
    if commentId in commentLikes then commentLikes[commentId] else {}
  }

  ghost function Pick(s: set<string>): string
    requires s != {}
  {
    var x :| x in s; x
  }

  /** Number of occurrences of option id `x` over all current selections. */
  ghost function Tally(votes: map<string, seq<string>>, x: string): nat
    decreases |votes.Keys|
  {
    if votes.Keys == {} then 0
    else
      var u := Pick(votes.Keys);
      assert (votes - {u}).Keys == votes.Keys - {u};
      multiset(votes[u])[x] + Tally(votes - {u}, x)
  }

  /** The tally splits into any one user's selection and the rest. */
  lemma {:induction false} TallyRemove(votes: map<string, seq<string>>, u: string, x: string)
    requires u in votes
    ensures Tally(votes, x) == multiset(votes[u])[x] + Tally(votes - {u}, x)
    decreases |votes.Keys|
  {
    var v := Pick(votes.Keys);
    assert (votes - {v}).Keys == votes.Keys - {v};
    if v != u {
      var withoutV := votes - {v};
      var withoutU := votes - {u};
      assert Tally(votes, x) == multiset(votes[v])[x] + Tally(withoutV, x);
      assert withoutU.Keys == votes.Keys - {u};
      assert u in withoutV && withoutV[u] == votes[u];
      assert v in withoutU && withoutU[v] == votes[v];
      TallyRemove(withoutV, u, x);
      TallyRemove(withoutU, v, x);
      assert withoutV - {u} == withoutU - {v};
    }
  }

  /** Replacing (or adding) one user's selection moves the tally by the
      difference between the new and the old selection. */
  lemma TallyUpdate(votes: map<string, seq<string>>, u: string, ids: seq<string>, x: string)
    ensures Tally(votes[u := ids], x) + (if u in votes then multiset(votes[u])[x] else 0)
            == Tally(votes, x) + multiset(ids)[x]
  {
    TallyRemove(votes[u := ids], u, x);
    assert votes[u := ids] - {u} == votes - {u};
    if u in votes {
      TallyRemove(votes, u, x);
    } else {
      assert votes - {u} == votes;
    }
  }

  /** The vote counters of one poll: each option's counter is its base
      value plus, for the option that `find` reaches, the tally of its id. */
  ghost predicate PollTallied(p: Poll, base: seq<int>, votes: map<string, seq<string>>, counted: bool) {
    && |base| == |p.options|
    && forall k :: 0 <= k < |base| ==>
         && base[k] >= 0
         && p.options[k].votes == base[k] + (if counted && FirstOptionWithId(p.options, k) then Tally(votes, p.options[k].id) else 0)
  }

  /** Only the first poll with an id is ever found, so only its counters move. */
  ghost predicate PollsTallied(polls: seq<Poll>, base: seq<seq<int>>, votesByPoll: map<string, map<string, seq<string>>>) {
    |base| == |polls|
    && forall i :: 0 <= i < |polls| ==>
         PollTallied(polls[i], base[i], VotesOf(votesByPoll, polls[i].id), FirstPollWithId(polls, i))
  }

  /** A non-empty vote map belongs to an existing poll. */
  ghost predicate VoteKeysKnown(polls: seq<Poll>, votesByPoll: map<string, map<string, seq<string>>>) {
    forall p :: p in votesByPoll && votesByPoll[p] != map[] ==> p in PollIds(polls)
  }

  /** Each comment's counter is its base value plus, for the comment that
      `find` reaches, the size of its like set. */
  ghost predicate LikesCounted(comments: seq<Comment>, base: seq<int>, commentLikes: map<string, set<string>>) {
    |base| == |comments|
    && forall j :: 0 <= j < |comments| ==>
         && base[j] >= 0
         && comments[j].likes == base[j] + (if FirstCommentWithId(comments, j) then |LikesOf(commentLikes, comments[j].id)| else 0)
  }

  /** A non-empty like set belongs to an existing comment. */
  ghost predicate LikeKeysKnown(comments: seq<Comment>, commentLikes: map<string, set<string>>) {
    forall c :: c in commentLikes && commentLikes[c] != {} ==> c in CommentIds(comments)
  }

  predicate EmailsDistinct(users: seq<User>) {
    forall i, j :: 0 <= i < j < |users| ==> !SameEmail(users[i].email, users[j].email)
  }

  /** The store's invariant, over its fields. */
  ghost predicate StoreValid(users: seq<User>, polls: seq<Poll>, comments: seq<Comment>,
                             votesByPoll: map<string, map<string, seq<string>>>, commentLikes: map<string, set<string>>,
                             baseVotes: seq<seq<int>>, baseLikes: seq<int>) {
    && EmailsDistinct(users)
    && PollsTallied(polls, baseVotes, votesByPoll)
    && VoteKeysKnown(polls, votesByPoll)
    && LikesCounted(comments, baseLikes, commentLikes)
    && LikeKeysKnown(comments, commentLikes)
  }

  /** A revote (decrement the previous selection, increment the new one,
      record it) or a first vote (previous selection empty) keeps the
      counters of every poll equal to base plus tally; in particular the
      clamp at 0 never fires. */
  lemma VotePreservesTally(polls: seq<Poll>, base: seq<seq<int>>,
                           votesByPoll: map<string, map<string, seq<string>>>,
                           votesByPoll': map<string, map<string, seq<string>>>,
                           pi: nat, u: string, prev: seq<string>, ids: seq<string>,
                           decremented: seq<PollOption>, incremented: seq<PollOption>)
    requires PollsTallied(polls, base, votesByPoll)
    requires pi < |polls| && FirstPollWithId(polls, pi)
    requires var v := VotesOf(votesByPoll, polls[pi].id); prev == if u in v then v[u] else []
    requires Decremented(polls[pi].options, decremented, prev)
    requires Incremented(decremented, incremented, ids)
    requires VotesOf(votesByPoll', polls[pi].id) == VotesOf(votesByPoll, polls[pi].id)[u := ids]
    requires forall q :: q != polls[pi].id ==> VotesOf(votesByPoll', q) == VotesOf(votesByPoll, q)
    ensures PollsTallied(polls[pi := polls[pi].(options := incremented)], base, votesByPoll')
  {
    var p := polls[pi];
    var v := VotesOf(votesByPoll, p.id);
    var polls' := polls[pi := p.(options := incremented)];
    forall k | 0 <= k < |p.options|
      ensures incremented[k].votes
              == base[pi][k] + (if FirstOptionWithId(incremented, k) then Tally(v[u := ids], incremented[k].id) else 0)
    {
      SameShapeSameFirst(p.options, decremented, k);
      SameShapeSameFirst(decremented, incremented, k);
      var x := p.options[k].id;
      if FirstOptionWithId(p.options, k) {
        TallyUpdate(v, u, ids, x);
        if u in v {
          TallyRemove(v, u, x);
        }
      }
    }
    assert PollTallied(polls'[pi], base[pi], VotesOf(votesByPoll', polls'[pi].id), FirstPollWithId(polls', pi));
    assert forall i :: 0 <= i < |polls| ==> polls'[i].id == polls[i].id;
    forall i | 0 <= i < |polls'| && i != pi
      ensures PollTallied(polls'[i], base[i], VotesOf(votesByPoll', polls'[i].id), FirstPollWithId(polls', i))
    {
      assert FirstPollWithId(polls', i) == FirstPollWithId(polls, i);
      if polls[i].id == p.id && i > pi {
        assert !FirstPollWithId(polls, i);
      }
    }
  }

  // ---------------------------------------------------------------------
  // Comment listing.

  /** `getCommentsForPoll`: the comments of a poll, in store order. */
  function GetCommentsForPoll(comments: seq<Comment>, pollId: string): (r: seq<Comment>)
    ensures forall c :: multiset(r)[c] == if c.pollId == pollId then multiset(comments)[c] else 0
  {
    if comments == [] then []
    else
      assert comments == [comments[0]] + comments[1..];
      (if comments[0].pollId == pollId then [comments[0]] else []) + GetCommentsForPoll(comments[1..], pollId)
  }

  /** The comparator of getCommentsPaginated is negative: `a` goes
      strictly before `b`. "most-liked" orders by likes, then by
      creation time, both descending; otherwise by creation time
      descending. */
  predicate Precedes(a: Comment, b: Comment, mostLiked: bool) {
    if mostLiked then a.likes > b.likes || (a.likes == b.likes && a.createdAt > b.createdAt)
    else a.createdAt > b.createdAt
  }

  predicate SortedBy(cs: seq<Comment>, mostLiked: bool) {
    forall i, j :: 0 <= i < j < |cs| ==> !Precedes(cs[j], cs[i], mostLiked)
  }

  function Insert(c: Comment, sorted: seq<Comment>, mostLiked: bool): (r: seq<Comment>)
    ensures multiset(r) == multiset(sorted) + multiset{c}
  {
    if sorted == [] then [c]
    else if Precedes(sorted[0], c, mostLiked) then
      assert sorted == [sorted[0]] + sorted[1..];
      [sorted[0]] + Insert(c, sorted[1..], mostLiked)
    else
      [c] + sorted
  }

  /** Inserting into a sorted sequence keeps it sorted: `c` goes after
      exactly those elements that must precede it. */
  lemma {:induction false} InsertSorted(c: Comment, sorted: seq<Comment>, mostLiked: bool)
    requires SortedBy(sorted, mostLiked)
    ensures SortedBy(Insert(c, sorted, mostLiked), mostLiked)
  {
    if sorted == [] {
    } else if Precedes(sorted[0], c, mostLiked) {
      var rest := Insert(c, sorted[1..], mostLiked);
      InsertSorted(c, sorted[1..], mostLiked);
      forall j | 0 <= j < |rest| ensures !Precedes(rest[j], sorted[0], mostLiked) {
        assert rest[j] in multiset(rest);
        if rest[j] != c {
          assert rest[j] in multiset(sorted[1..]);
          var k :| 0 <= k < |sorted[1..]| && sorted[1..][k] == rest[j];
          assert sorted[k + 1] == rest[j];
        }
      }
      var r := [sorted[0]] + rest;
      assert forall j :: 0 < j < |r| ==> r[j] == rest[j - 1];
    } else {
      var r := [c] + sorted;
      forall j | 0 <= j < |sorted| ensures !Precedes(sorted[j], c, mostLiked) {
        if j > 0 { assert !Precedes(sorted[j], sorted[0], mostLiked); }
      }
      assert forall j :: 0 < j < |r| ==> r[j] == sorted[j - 1];
    }
  }

  /** A stable insertion sort by the comparator: the order in which the
      engine's stable `Array.prototype.sort` leaves the comments. */
  function SortComments(cs: seq<Comment>, mostLiked: bool): (r: seq<Comment>)
    ensures SortedBy(r, mostLiked)
    ensures multiset(r) == multiset(cs)
  {
    if cs == [] then []
    else
      assert cs == [cs[0]] + cs[1..];
      InsertSorted(cs[0], SortComments(cs[1..], mostLiked), mostLiked);
      Insert(cs[0], SortComments(cs[1..], mostLiked), mostLiked)
  }

  /** Where `Array.prototype.slice` puts a start or end argument: negative
      values count from the end, everything is clamped to the length. */
  function SliceIndex(k: int, len: nat): (r: nat)
    ensures r <= len
    ensures 0 <= k ==> r == Min(k, len)
  {
    if k < 0 then (if len + k < 0 then 0 else len + k) else Min(k, len)
  }

  /** `s.slice(start, end)`: a contiguous part of `s`. */
  function JsSlice<T>(s: seq<T>, start: int, end: int): (r: seq<T>)
    ensures 0 <= start && 0 <= end ==>
      r == if start < |s| && start < end then s[start..Min(end, |s|)] else []
    ensures forall x :: x in r ==> x in s
  {
    var from := SliceIndex(start, |s|);
    var to := SliceIndex(end, |s|);
    if from < to then
      assert forall i :: 0 <= i < to - from ==> s[from..to][i] == s[from + i];
      s[from..to]
    else []
  }

  lemma SliceOfSorted(s: seq<Comment>, start: int, end: int, mostLiked: bool)
    requires SortedBy(s, mostLiked)
    ensures SortedBy(JsSlice(s, start, end), mostLiked)
  {
    var from := SliceIndex(start, |s|);
    var to := SliceIndex(end, |s|);
    if from < to {
      assert forall i :: 0 <= i < to - from ==> s[from..to][i] == s[from + i];
    }
  }

  /** A window of `limit` elements from `offset` holds `limit` elements,
      or what remains after `offset`. */
  lemma WindowLength<T>(s: seq<T>, offset: int, limit: int)
    ensures 0 <= offset && 0 <= limit ==>
              |JsSlice(s, offset, offset + limit)| == if offset < |s| then Min(limit, |s| - offset) else 0
  {
  }

  /** `items` is the window `[offset, offset + limit)` of some ordering of
      `cs` sorted by the comparator. */
  ghost predicate PageOf(items: seq<Comment>, cs: seq<Comment>, mostLiked: bool, offset: int, limit: int) {
    exists sorted :: SortedBy(sorted, mostLiked) && multiset(sorted) == multiset(cs)
                     && items == JsSlice(sorted, offset, offset + limit)
  }

  lemma PageWitness(sorted: seq<Comment>, cs: seq<Comment>, mostLiked: bool, offset: int, limit: int)
    requires SortedBy(sorted, mostLiked) && multiset(sorted) == multiset(cs)
    ensures PageOf(JsSlice(sorted, offset, offset + limit), cs, mostLiked, offset, limit)
  {
  }

  /** What any such window is: elements of `cs`, in comparator order,
      `limit` of them or what remains after `offset`. */
  lemma PageOfProperties(items: seq<Comment>, cs: seq<Comment>, mostLiked: bool, offset: int, limit: int)
    requires PageOf(items, cs, mostLiked, offset, limit)
    ensures forall c :: c in items ==> c in cs
    ensures SortedBy(items, mostLiked)
    ensures 0 <= offset && 0 <= limit ==>
              |items| == if offset < |cs| then Min(limit, |cs| - offset) else 0
  {
    var sorted :| SortedBy(sorted, mostLiked) && multiset(sorted) == multiset(cs)
                  && items == JsSlice(sorted, offset, offset + limit);
    SliceOfSorted(sorted, offset, offset + limit, mostLiked);
    WindowLength(sorted, offset, limit);
    assert |sorted| == |multiset(sorted)| == |cs|;
    forall c | c in items ensures c in cs {
      assert c in multiset(sorted);
    }
  }

  /** `getCommentsPaginated`: `total` counts every comment of the poll;
      `items` is the `[offset, offset + limit)` window of those comments
      sorted by the requested order. */
  function GetCommentsPaginated(comments: seq<Comment>, pollId: string, sort: string, offset: int, limit: int): (page: Page)
    ensures page.total == |GetCommentsForPoll(comments, pollId)|
    ensures PageOf(page.items, GetCommentsForPoll(comments, pollId), sort == "most-liked", offset, limit)
  {
    var forPoll := GetCommentsForPoll(comments, pollId);
    var sorted := SortComments(forPoll, sort == "most-liked");
    PageWitness(sorted, forPoll, sort == "most-liked", offset, limit);
    assert |sorted| == |multiset(sorted)| == |forPoll|;
    Page(|sorted|, JsSlice(sorted, offset, offset + limit))
  }

  /** A page holds comments of the requested poll only, in comparator
      order: by likes then recency for "most-liked", by recency for any
      other sort; and `limit` of them, or as many as remain after `offset`. */
  lemma PaginatedPage(comments: seq<Comment>, pollId: string, sort: string, offset: int, limit: int)
    ensures var page := GetCommentsPaginated(comments, pollId, sort, offset, limit);
            && (forall c :: c in page.items ==> c in comments && c.pollId == pollId)
            && (forall i, j :: 0 <= i < j < |page.items| ==>
                  if sort == "most-liked"
                  then page.items[i].likes > page.items[j].likes
                       || (page.items[i].likes == page.items[j].likes && page.items[i].createdAt >= page.items[j].createdAt)
                  else page.items[i].createdAt >= page.items[j].createdAt)
            && (0 <= offset && 0 <= limit ==>
                  |page.items| == if offset < page.total then Min(limit, page.total - offset) else 0)
  {
    var page := GetCommentsPaginated(comments, pollId, sort, offset, limit);
    var forPoll := GetCommentsForPoll(comments, pollId);
    PageOfProperties(page.items, forPoll, sort == "most-liked", offset, limit);
    forall c | c in page.items ensures c in comments && c.pollId == pollId {
      assert c in multiset(forPoll);
    }
  }

  // ---------------------------------------------------------------------
  // The seeded data.

  function SeedPolls(now: int): seq<Poll> {
    [
      Poll("poll-1", "What is your favorite programming language?",
           [PollOption("opt-1-1", "JavaScript", 15), PollOption("opt-1-2", "Python", 10),
            PollOption("opt-1-3", "TypeScript", 20), PollOption("opt-1-4", "Java", 5)],
           now - DAY_MS, now + 7 * DAY_MS, SingleChoice, ["Programming"], now - 3 * DAY_MS),
      Poll("poll-2", "Which framework do you prefer for web development?",
           [PollOption("opt-2-1", "React", 25), PollOption("opt-2-2", "Angular", 8),
            PollOption("opt-2-3", "Vue", 12), PollOption("opt-2-4", "Svelte", 7)],
           now - 3 * DAY_MS, now + 2 * DAY_MS, SingleChoice, ["Programming", "Web"], now - 6 * DAY_MS),
      Poll("poll-3", "Favorite season? (Multi-select)",
           [PollOption("opt-3-1", "Spring", 5), PollOption("opt-3-2", "Summer", 10),
            PollOption("opt-3-3", "Autumn", 8), PollOption("opt-3-4", "Winter", 3)],
           now + DAY_MS, now + 8 * DAY_MS, MultiSelect, ["Lifestyle"], now - DAY_MS),
      Poll("poll-4", "Best pet? (Closed)",
           [PollOption("opt-4-1", "Dog", 10), PollOption("opt-4-2", "Cat", 7), PollOption("opt-4-3", "Fish", 2)],
           now - 10 * DAY_MS, now - 5 * DAY_MS, SingleChoice, ["Lifestyle", "Pets"], now - 12 * DAY_MS)
    ]
  }

  function SeedComments(ids: seq<string>, adminId: string, now: int): seq<Comment>
    requires |ids| == 3
  {
    [
      Comment(ids[0], "poll-1", adminId, "alice", "I think TypeScript scales better long-term.", now - 2 * HOUR_MS, 3),
      Comment(ids[1], "poll-1", adminId, "bob", "JS forever for flexibility!", now - 5 * HOUR_MS, 1),
      Comment(ids[2], "poll-2", adminId, "sam", "React all the way!", now - 7 * HOUR_MS, 4)
    ]
  }

  predicate NonNegativeCounters(p: Poll) {
    forall k :: 0 <= k < |p.options| ==> p.options[k].votes >= 0
  }

  /** The counters of a poll, taken as its base. */
  function Counters(p: Poll): seq<int> {
    seq(|p.options|, k requires 0 <= k < |p.options| => p.options[k].votes)
  }

  /** With no selections recorded, polls with non-negative counters are
      tallied against their own counters. */
  lemma NoVotesTallied(polls: seq<Poll>)
    requires forall i :: 0 <= i < |polls| ==> NonNegativeCounters(polls[i])
    ensures PollsTallied(polls, seq(|polls|, i requires 0 <= i < |polls| => Counters(polls[i])), map[])
  {
    assert forall x :: Tally(map[], x) == 0;
  }

  /** With no likes recorded, comments with non-negative counters are
      counted against their own counters. */
  lemma NoLikesCounted(comments: seq<Comment>)
    requires forall j :: 0 <= j < |comments| ==> comments[j].likes >= 0
    ensures LikesCounted(comments, seq(|comments|, j requires 0 <= j < |comments| => comments[j].likes), map[])
  {
  }

  lemma SeedCountersNonNegative(now: int)
    ensures forall i :: 0 <= i < |SeedPolls(now)| ==> NonNegativeCounters(SeedPolls(now)[i])
  {
    var polls := SeedPolls(now);
    assert NonNegativeCounters(polls[0]) && NonNegativeCounters(polls[1]);
    assert NonNegativeCounters(polls[2]) && NonNegativeCounters(polls[3]);
  }

  // ---------------------------------------------------------------------
  // The store.

  class Store {
    var users: seq<User>
    var polls: seq<Poll>
    var comments: seq<Comment>
    /** pollId -> userId -> selected option ids */
    var votesByPoll: map<string, map<string, seq<string>>>
    /** commentId -> users who liked it */
    var commentLikes: map<string, set<string>>
    /** SHA-256 of crypto-js, uninterpreted. */
    const sha256: string -> string
    /** The counters each poll option and each comment would have with no
        selections and no likes recorded. */
    ghost var baseVotes: seq<seq<int>>
    ghost var baseLikes: seq<int>

    ghost predicate Valid()
      reads this
    {
      StoreValid(users, polls, comments, votesByPoll, commentLikes, baseVotes, baseLikes)
    }

    /** The seeded state: one admin, four polls, three comments with
        preset likes. `uuid(0)` is the admin's salt, `uuid(1)` the admin's
        id and `uuid(2..4)` the comment ids; `now` reads the clock. */
    constructor Seed(sha256: string -> string, uuid: nat -> string, now: int)
      ensures Valid()
      ensures users == [User(uuid(1), "admin@example.com", HashPassword(sha256, "admin123", uuid(0)), uuid(0), AdminRole, now)]
      ensures polls == SeedPolls(now)
      ensures comments == SeedComments([uuid(2), uuid(3), uuid(4)], uuid(1), now)
      ensures votesByPoll == map[] && commentLikes == map[]
      ensures this.sha256 == sha256
    {
      this.sha256 := sha256;
      var salt := uuid(0);
      var adminId := uuid(1);
      users := [User(adminId, "admin@example.com", HashPassword(sha256, "admin123", salt), salt, AdminRole, now)];
      var seeded := SeedPolls(now);
      var seededComments := SeedComments([uuid(2), uuid(3), uuid(4)], adminId, now);
      polls := seeded;
      comments := seededComments;
      votesByPoll := map[];
      commentLikes := map[];
      baseVotes := seq(|seeded|, i requires 0 <= i < |seeded| => Counters(seeded[i]));
      baseLikes := seq(|seededComments|, j requires 0 <= j < |seededComments| => seededComments[j].likes);
      new;
      SeedCountersNonNegative(now);
      NoVotesTallied(seeded);
      NoLikesCounted(seededComments);
    }

    /** `createUser`: rejects an email already present ignoring case;
        otherwise appends one user with a fresh salt and id. */
    method CreateUser(email: string, password: string, role: Role, salt: string, id: string, now: int)
      returns (r: Result<User>)
      modifies this`users
      ensures FindUserByEmail(old(users), email).Some? ==> r == Failure("User already exists") && users == old(users)
      ensures FindUserByEmail(old(users), email).None? ==>
                && r == Success(User(id, email, HashPassword(sha256, password, salt), salt, role, now))
                && users == old(users) + [r.value]
      ensures old(Valid()) ==> Valid()
    {
      var existing := FindUserByEmail(users, email);
      if existing.Some? {
        return Failure("User already exists");
      }
      var user := User(id, email, HashPassword(sha256, password, salt), salt, role, now);
      users := users + [user];
      return Success(user);
    }

    /** `addPoll`: appends. A poll whose counters are non-negative keeps
        the store valid: a fresh id has no selections yet, a repeated id
        is never found. */
    method AddPoll(poll: Poll)
      modifies this`polls, this`baseVotes
      ensures polls == old(polls) + [poll]
      ensures old(Valid()) && (forall k :: 0 <= k < |poll.options| ==> poll.options[k].votes >= 0) ==> Valid()
    {
      ghost var before := polls;
      polls := polls + [poll];
      baseVotes := baseVotes + [Counters(poll)];
      if old(Valid()) && (forall k :: 0 <= k < |poll.options| ==> poll.options[k].votes >= 0) {
        assert forall i :: 0 <= i < |before| ==> polls[i] == before[i];
        assert forall i :: 0 <= i < |before| ==> FirstPollWithId(polls, i) == FirstPollWithId(before, i);
        if FirstPollWithId(polls, |before|) {
          assert poll.id !in PollIds(before);
          assert VotesOf(votesByPoll, poll.id) == map[];
          assert forall x :: Tally(map[], x) == 0;
        }
        PollIdsAppend(before, poll);
      }
    }

    /** `getVoteMap`: creates the empty map of a poll on first use. */
    method GetVoteMap(pollId: string) returns (m: map<string, seq<string>>)
      modifies this`votesByPoll
      ensures m == VotesOf(old(votesByPoll), pollId)
      ensures votesByPoll == old(votesByPoll)[pollId := m]
      ensures forall q :: VotesOf(votesByPoll, q) == VotesOf(old(votesByPoll), q)
      ensures old(Valid()) ==> Valid()
    {
      if pollId !in votesByPoll {
        votesByPoll := votesByPoll[pollId := map[]];
      }
      m := votesByPoll[pollId];
    }

    method HasUserVoted(pollId: string, userId: string) returns (voted: bool)
      modifies this`votesByPoll
      ensures voted <==> userId in VotesOf(old(votesByPoll), pollId)
      ensures votesByPoll == old(votesByPoll)[pollId := VotesOf(old(votesByPoll), pollId)]
      ensures forall q :: VotesOf(votesByPoll, q) == VotesOf(old(votesByPoll), q)
      ensures old(Valid()) ==> Valid()
    {
      var m := GetVoteMap(pollId);
      voted := userId in m;
    }

    method GetUserVoteOptions(pollId: string, userId: string) returns (r: Option<seq<string>>)
      modifies this`votesByPoll
      ensures var m := VotesOf(old(votesByPoll), pollId); r == if userId in m then Some(m[userId]) else None
      ensures votesByPoll == old(votesByPoll)[pollId := VotesOf(old(votesByPoll), pollId)]
      ensures forall q :: VotesOf(votesByPoll, q) == VotesOf(old(votesByPoll), q)
      ensures old(Valid()) ==> Valid()
    {
      var m := GetVoteMap(pollId);
      r := if userId in m then Some(m[userId]) else None;
    }

    /** `setUserVoteOptions`: records (or replaces) one selection; every
        other (poll, user) record is untouched. */
    method SetUserVoteOptions(pollId: string, userId: string, optionIds: seq<string>)
      modifies this`votesByPoll
      ensures votesByPoll == old(votesByPoll)[pollId := VotesOf(old(votesByPoll), pollId)[userId := optionIds]]
      ensures userId in VotesOf(votesByPoll, pollId) && VotesOf(votesByPoll, pollId)[userId] == optionIds
      ensures forall u :: u != userId ==> Get(VotesOf(votesByPoll, pollId), u) == Get(VotesOf(old(votesByPoll), pollId), u)
      ensures forall q :: q != pollId ==> VotesOf(votesByPoll, q) == VotesOf(old(votesByPoll), q)
    {
      var m := GetVoteMap(pollId);
      votesByPoll := votesByPoll[pollId := m[userId := optionIds]];
    }

    /** `clearUserVote`: removes only that record. */
    method ClearUserVote(pollId: string, userId: string)
      modifies this`votesByPoll
      ensures votesByPoll == old(votesByPoll)[pollId := VotesOf(old(votesByPoll), pollId) - {userId}]
      ensures userId !in VotesOf(votesByPoll, pollId)
      ensures forall u :: u != userId ==> Get(VotesOf(votesByPoll, pollId), u) == Get(VotesOf(old(votesByPoll), pollId), u)
      ensures forall q :: q != pollId ==> VotesOf(votesByPoll, q) == VotesOf(old(votesByPoll), q)
    {
      var m := GetVoteMap(pollId);
      votesByPoll := votesByPoll[pollId := m - {userId}];
    }

    /** `incrementVotes`: one more vote on the first option with each id,
        per occurrence; unknown ids are ignored and only the counters of
        that poll change. */
    method IncrementVotes(pi: nat, optionIds: seq<string>)
      requires pi < |polls|
      modifies this`polls
      ensures |polls| == |old(polls)|
      ensures polls == old(polls)[pi := old(polls)[pi].(options := polls[pi].options)]
      ensures Incremented(old(polls)[pi].options, polls[pi].options, optionIds)
    {
      var options := polls[pi].options;
      for i := 0 to |optionIds|
        invariant Incremented(polls[pi].options, options, optionIds[..i])
      {
        var id := optionIds[i];
        assert optionIds[..i + 1] == optionIds[..i] + [id];
        var found := FindOption(options, id);
        if found.Some? {
          var k := found.value;
          options := options[k := options[k].(votes := options[k].votes + 1)];
        }
      }
      assert optionIds[..|optionIds|] == optionIds;
      polls := polls[pi := polls[pi].(options := options)];
    }

    /** `decrementVotes`: one vote less on the first option with each id,
        per occurrence, never below 0. */
    method DecrementVotes(pi: nat, optionIds: seq<string>)
      requires pi < |polls|
      modifies this`polls
      ensures |polls| == |old(polls)|
      ensures polls == old(polls)[pi := old(polls)[pi].(options := polls[pi].options)]
      ensures Decremented(old(polls)[pi].options, polls[pi].options, optionIds)
    {
      var options := polls[pi].options;
      for i := 0 to |optionIds|
        invariant Decremented(polls[pi].options, options, optionIds[..i])
      {
        var id := optionIds[i];
        assert optionIds[..i + 1] == optionIds[..i] + [id];
        var found := FindOption(options, id);
        if found.Some? {
          var k := found.value;
          options := options[k := options[k].(votes := Max(0, options[k].votes - 1))];
        }
      }
      assert optionIds[..|optionIds|] == optionIds;
      polls := polls[pi := polls[pi].(options := options)];
    }

    /** `getParticipantCount`: the number of users with a recorded
        selection, however many options each selected. */
    method GetParticipantCount(pollId: string) returns (n: nat)
      modifies this`votesByPoll
      ensures n == |VotesOf(old(votesByPoll), pollId)|
      ensures votesByPoll == old(votesByPoll)[pollId := VotesOf(old(votesByPoll), pollId)]
      ensures old(Valid()) ==> Valid()
    {
      var m := GetVoteMap(pollId);
      n := |m|;
    }

    /** `addComment`: appends a comment with no likes. */
    method AddComment(pollId: string, userId: string, author: string, text: string, id: string, now: int)
      returns (c: Comment)
      modifies this`comments, this`baseLikes
      ensures c == Comment(id, pollId, userId, author, text, now, 0)
      ensures comments == old(comments) + [c]
      ensures old(Valid()) ==> Valid()
    {
      ghost var before := comments;
      c := Comment(id, pollId, userId, author, text, now, 0);
      comments := comments + [c];
      baseLikes := baseLikes + [0];
      if old(Valid()) {
        assert forall j :: 0 <= j < |before| ==> comments[j] == before[j];
        assert forall j :: 0 <= j < |before| ==> FirstCommentWithId(comments, j) == FirstCommentWithId(before, j);
        if FirstCommentWithId(comments, |before|) {
          assert id !in CommentIds(before);
        }
        CommentIdsAppend(before, c);
      }
    }

    /** `getLikeSet`: creates the empty set of a comment on first use. */
    method GetLikeSet(commentId: string) returns (s: set<string>)
      modifies this`commentLikes
      ensures s == LikesOf(old(commentLikes), commentId)
      ensures commentLikes == old(commentLikes)[commentId := s]
      ensures forall c :: LikesOf(commentLikes, c) == LikesOf(old(commentLikes), c)
      ensures old(Valid()) ==> Valid()
    {
      if commentId !in commentLikes {
        commentLikes := commentLikes[commentId := {}];
      }
      s := commentLikes[commentId];
    }

    method HasUserLikedComment(commentId: string, userId: string) returns (liked: bool)
      modifies this`commentLikes
      ensures liked <==> userId in LikesOf(old(commentLikes), commentId)
      ensures commentLikes == old(commentLikes)[commentId := LikesOf(old(commentLikes), commentId)]
      ensures forall c :: LikesOf(commentLikes, c) == LikesOf(old(commentLikes), c)
      ensures old(Valid()) ==> Valid()
    {
      var s := GetLikeSet(commentId);
      liked := userId in s;
    }

    /** Replaces the like set and the counter of comment `j` together; the
        store stays valid when the counter moves with the set's size
        (clamped at 0 or not: on a valid store the clamp never fires). */
    method SetLikes(j: nat, likers: set<string>, likes: int)
      requires j < |comments|
      modifies this`comments, this`commentLikes
      ensures commentLikes == old(commentLikes)[old(comments)[j].id := likers]
      ensures comments == old(comments)[j := old(comments)[j].(likes := likes)]
      ensures var moved := old(comments)[j].likes + |likers| - |LikesOf(old(commentLikes), old(comments)[j].id)|;
              old(Valid()) && FirstCommentWithId(old(comments), j) && (likes == moved || likes == Max(0, moved))
              ==> Valid()
    {
      var moved := comments[j].likes + |likers| - |LikesOf(commentLikes, comments[j].id)|;
      if Valid() && FirstCommentWithId(comments, j) && (likes == moved || likes == Max(0, moved)) {
        LikersCounted(users, polls, comments, votesByPoll, commentLikes, baseVotes, baseLikes, j);
        LikeUpdateKeepsValid(users, polls, comments, votesByPoll, commentLikes, baseVotes, baseLikes,
                             j, likers, comments[j := comments[j].(likes := likes)]);
      }
      commentLikes := commentLikes[comments[j].id := likers];
      comments := comments[j := comments[j].(likes := likes)];
    }

    /** `likeComment`: throws on an unknown id; otherwise adds the user to
        the like set and raises the counter only when the user was not in
        it yet, and returns the counter. Set and counter move together. */
    method LikeComment(commentId: string, userId: string) returns (r: Result<int>)
      modifies this`comments, this`commentLikes
      ensures GetCommentById(old(comments), commentId).None? ==>
                r == Failure("Comment not found") && comments == old(comments) && commentLikes == old(commentLikes)
      ensures GetCommentById(old(comments), commentId).Some? ==>
                var j := GetCommentById(old(comments), commentId).value;
                var s := LikesOf(old(commentLikes), commentId);
                && commentLikes == old(commentLikes)[commentId := s + {userId}]
                && (userId in s ==> comments == old(comments))
                && (userId !in s ==> comments == old(comments)[j := old(comments)[j].(likes := old(comments)[j].likes + 1)])
                && r == Success(comments[j].likes)
      ensures old(Valid()) ==> Valid()
    {
      var found := GetCommentById(comments, commentId);
      if found.None? {
        return Failure("Comment not found");
      }
      var j := found.value;
      var s := GetLikeSet(commentId);
      if userId !in s {
        assert |s + {userId}| == |s| + 1;
        SetLikes(j, s + {userId}, comments[j].likes + 1);
      } else {
        assert s + {userId} == s;
      }
      r := Success(comments[j].likes);
    }

    /** `unlikeComment`: throws on an unknown id; otherwise removes the
        user and lowers the counter (never below 0) only when the user was
        in the set, and returns the counter. */
    method UnlikeComment(commentId: string, userId: string) returns (r: Result<int>)
      modifies this`comments, this`commentLikes
      ensures GetCommentById(old(comments), commentId).None? ==>
                r == Failure("Comment not found") && comments == old(comments) && commentLikes == old(commentLikes)
      ensures GetCommentById(old(comments), commentId).Some? ==>
                var j := GetCommentById(old(comments), commentId).value;
                var s := LikesOf(old(commentLikes), commentId);
                && commentLikes == old(commentLikes)[commentId := s - {userId}]
                && (userId in s ==> comments == old(comments)[j := old(comments)[j].(likes := Max(0, old(comments)[j].likes - 1))])
                && (userId !in s ==> comments == old(comments))
                && r == Success(comments[j].likes)
      ensures old(Valid()) ==> Valid()
    {
      var found := GetCommentById(comments, commentId);
      if found.None? {
        return Failure("Comment not found");
      }
      var j := found.value;
      var s := GetLikeSet(commentId);
      if userId in s {
        assert |s - {userId}| == |s| - 1;
        SetLikes(j, s - {userId}, Max(0, comments[j].likes - 1));
      } else {
        assert s - {userId} == s;
      }
      r := Success(comments[j].likes);
    }
  }

  function Get(m: map<string, seq<string>>, k: string): Option<seq<string>> {
    if k in m then Some(m[k]) else None
  }

  /** A comment's counter is at least the number of users who liked it. */
  lemma LikersCounted(users: seq<User>, polls: seq<Poll>, comments: seq<Comment>,
                      votesByPoll: map<string, map<string, seq<string>>>, commentLikes: map<string, set<string>>,
                      baseVotes: seq<seq<int>>, baseLikes: seq<int>, j: nat)
    requires StoreValid(users, polls, comments, votesByPoll, commentLikes, baseVotes, baseLikes)
    requires j < |comments| && FirstCommentWithId(comments, j)
    ensures comments[j].likes >= |LikesOf(commentLikes, comments[j].id)|
  {
  }

  /** Replacing the like set of the comment `find` reaches and moving its
      counter by the change in the set's size keeps the store valid. */
  lemma LikeUpdateKeepsValid(users: seq<User>, polls: seq<Poll>, comments: seq<Comment>,
                             votesByPoll: map<string, map<string, seq<string>>>, commentLikes: map<string, set<string>>,
                             baseVotes: seq<seq<int>>, baseLikes: seq<int>,
                             j: nat, likers: set<string>, comments': seq<Comment>)
    requires StoreValid(users, polls, comments, votesByPoll, commentLikes, baseVotes, baseLikes)
    requires j < |comments| && FirstCommentWithId(comments, j)
    requires comments' == comments[j := comments[j].(likes := comments[j].likes + |likers| - |LikesOf(commentLikes, comments[j].id)|)]
    ensures StoreValid(users, polls, comments', votesByPoll, commentLikes[comments[j].id := likers], baseVotes, baseLikes)
  {
    var id := comments[j].id;
    assert forall i :: 0 <= i < |comments| ==> comments'[i].id == comments[i].id;
    assert CommentIds(comments') == CommentIds(comments);
    assert id in CommentIds(comments);
    forall i | 0 <= i < |comments'|
      ensures comments'[i].likes == baseLikes[i] + (if FirstCommentWithId(comments', i) then |LikesOf(commentLikes[id := likers], comments'[i].id)| else 0)
    {
      assert FirstCommentWithId(comments', i) == FirstCommentWithId(comments, i);
      if i != j && comments[i].id == id && i > j {
        assert !FirstCommentWithId(comments, i);
      }
    }
  }
}
