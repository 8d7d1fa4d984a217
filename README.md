# Polling server core, modelled in Dafny

This project models the server side of a small polling web application. The server keeps everything in memory in one process:

- users, polls and comments;
- each user's current selection on each poll;
- the set of users who liked each comment.

On top of that store it runs:

- a fixed-window rate limiter;
- session tokens (URL-safe base64 payload, a dot, an HMAC signature) and sign-in;
- a client-address helper and relative-time captions;
- the route handlers for voting, commenting, liking, creating polls and counting participants.

Each source file becomes one Dafny module:

| module | file | form |
|---|---|---|
| `Db` | `db.dfy` | class `Store` over sequences and maps, with pure lookups |
| `RateLimit` | `rate_limit.dfy` | class `Limiter` over a bucket map, specified by the function `Check` |
| `Auth` | `auth.dfy` | functions and lemmas |
| `ClientIp` | `ip.dfy` | functions and lemmas |
| `Time` | `time.dfy` | functions and lemmas |
| `VoteRoute`, `CommentsRoute`, `LikeRoute`, `PollsRoute` | the route files | methods over a `Store` and a `Limiter`, with pure screening functions |
| `ParticipantsRoute` | `participants_route.dfy` | pure functions |

`Wrappers`, `Strings`, `Numbers` and `Http` hold shared helpers:

- `Option` and `Result`;
- JavaScript-style `toLowerCase`, `trim`, `split` and `includes`;
- `Math.floor` and `Math.ceil` of a quotient;
- the request headers and the JSON or error answer of a handler.

The store's invariant (`Db.StoreValid`) has two halves:

- every poll option's counter equals its base value plus the number of times its id occurs in users' current selections;
- every comment's counter equals its base value plus the size of its like set. Only the option or comment that `find` reaches is counted.

Every handler keeps this invariant (`old(db.Valid()) ==> db.Valid()`), and so do the store's lookups, `CreateUser`, `AddComment`, `LikeComment` and `UnlikeComment`. Some store methods keep it only under a condition, or only in combination:

- `AddPoll` keeps it when the new poll's counters are non-negative;
- `SetLikes` keeps it when the counter moves by the change in the set's size;
- `SetUserVoteOptions`, `ClearUserVote`, `IncrementVotes` and `DecrementVotes` each break the tally on their own. The vote handler runs them in a combination that keeps it, and `VoteRoute.RecordKeepsValid` proves that.

The clock, fresh ids (`uuid`), SHA-256, HMAC-SHA256, base64 and `JSON.stringify`/`JSON.parse` are parameters: the clock is an integer `now` in milliseconds, and the others are uninterpreted functions (`Auth.Primitives`, `Store.sha256`). The request is reduced to the headers and body fields each handler reads.

## Model

| member | source | states |
|---|---|---|
| Db.FirstIndex | lib/server/db.ts:189-194 | `find` gives the first position satisfying the test, or none when no element does |
| Db.FindUserByEmail | lib/server/db.ts:189-191 | the first user whose email equals the given one ignoring case; none exactly when no user matches |
| Db.FindUserById | lib/server/db.ts:192-194 | the first user with that id; none exactly when no user has it |
| Db.GetPollById | lib/server/db.ts:203-205 | the position of the first poll with that id; none exactly when no poll has it |
| Db.GetCommentById | lib/server/db.ts:258-260 | the position of the first comment with that id; none exactly when no comment has it |
| Db.FindOption | lib/server/db.ts:227 | the first option with that id, as `incrementVotes`/`decrementVotes` find it |
| Db.PollIdsAppend | lib/server/db.ts:200-202 | appending a poll adds exactly its id to the set of poll ids |
| Db.CommentIdsAppend | lib/server/db.ts:252 | appending a comment adds exactly its id to the set of comment ids |
| Db.SameShapeSameFirst | lib/server/db.ts:225-236 | counter updates keep option ids, so the option `find` reaches and the hits per id stay the same |
| Db.TallyRemove | lib/server/db.ts:213-224 | the occurrences of an option id over all selections split into one user's selection plus the rest |
| Db.TallyUpdate | lib/server/db.ts:219-221 | replacing or adding one user's selection moves the tally by new minus old occurrences |
| Db.VotePreservesTally | lib/server/db.ts:225-236 | decrementing the recorded selection, incrementing the new one and recording it keeps every counter equal to base plus tally, so the clamp at 0 never fires |
| Db.GetCommentsForPoll | lib/server/db.ts:255-257 | exactly the comments of the poll, each as often as in the store |
| Db.Insert | lib/server/db.ts:268-271 | inserting adds exactly one element (as a multiset) |
| Db.InsertSorted | lib/server/db.ts:268-271 | insertion into a comparator-sorted sequence stays sorted |
| Db.SortComments | lib/server/db.ts:268-271 | the sort is sorted by the comparator and a permutation of its input |
| Db.SliceIndex | lib/server/db.ts:273 | `slice` clamps a start or end argument to the length |
| Db.JsSlice | lib/server/db.ts:273 | `slice(start, end)` is the contiguous part `[start, min(end, len))` and holds only elements of the input |
| Db.SliceOfSorted | lib/server/db.ts:273 | a slice of a sorted sequence is sorted |
| Db.WindowLength | lib/server/db.ts:273 | the window from `offset` holds `limit` elements or what remains |
| Db.PageWitness | lib/server/db.ts:267-274 | a window of a sorted permutation is a page of the comments |
| Db.PageOfProperties | lib/server/db.ts:267-274 | a page holds only comments of the input, in comparator order, `min(limit, total - offset)` of them |
| Db.GetCommentsPaginated | lib/server/db.ts:261-275 | `total` counts every comment of the poll whatever the offset and limit; `items` is the `[offset, offset + limit)` window of them sorted by the requested order |
| Db.PaginatedPage | lib/server/db.ts:261-275 | page items belong to the poll and come by likes then recency for "most-liked" and by recency for any other sort; their number is `min(limit, total - offset)` |
| Db.NoVotesTallied | lib/server/db.ts:85-145 | with no selections, polls with non-negative counters satisfy the tally invariant against their own counters |
| Db.NoLikesCounted | lib/server/db.ts:147-161 | with no likes, comments satisfy the like invariant against their seeded counters |
| Db.SeedCountersNonNegative | lib/server/db.ts:85-145 | every seeded counter is non-negative |
| Db.Store.Seed | lib/server/db.ts:67-164 | the seeded state: one admin with the hashed demo password, the four polls, the three comments with preset likes, and no selections or likes; the store is valid |
| Db.Store.CreateUser | lib/server/db.ts:176-188 | an email already present ignoring case fails with "User already exists" and leaves `users` unchanged; otherwise exactly one user is appended with the given email and role and `HashPassword` (`hashPassword`: `sha256(password + salt)`) as its hash, the hash sign-in recomputes |
| Db.Store.AddPoll | lib/server/db.ts:200-202 | the poll is appended after all others; a poll with non-negative counters keeps the store valid |
| Db.Store.GetVoteMap | lib/server/db.ts:208-212 | the poll's selections (empty when none), and only an empty map is inserted |
| Db.Store.HasUserVoted | lib/server/db.ts:213-215 | true exactly when the user has a recorded selection for the poll |
| Db.Store.GetUserVoteOptions | lib/server/db.ts:216-218 | the user's recorded selection, or none |
| Db.Store.SetUserVoteOptions | lib/server/db.ts:219-221 | afterwards the user has a record equal to the selection, and every other (poll, user) record is untouched |
| Db.Store.ClearUserVote | lib/server/db.ts:222-224 | removes only that user's record for that poll |
| Db.Store.IncrementVotes | lib/server/db.ts:225-230 | one more vote on the first option with each id, per occurrence; unknown ids are ignored; option order, ids and texts and every other poll are unchanged |
| Db.Store.DecrementVotes | lib/server/db.ts:231-236 | one vote less per occurrence, never below 0; ids, texts, order and every other poll are unchanged |
| Db.Store.GetParticipantCount | lib/server/db.ts:237-239 | the number of users with a record for the poll, however many options each selected |
| Db.Store.AddComment | lib/server/db.ts:242-254 | appends and returns a comment with the given fields, the fresh id, the clock and 0 likes |
| Db.Store.GetLikeSet | lib/server/db.ts:278-282 | the comment's like set (empty when none); only an empty set is inserted |
| Db.Store.HasUserLikedComment | lib/server/db.ts:283-285 | true exactly when the user is in the comment's like set |
| Db.Store.SetLikes | lib/server/db.ts:289-303 | set and counter are replaced together; moving the counter by the change in the set's size keeps the store valid |
| Db.Store.LikeComment | lib/server/db.ts:286-295 | an unknown id fails with "Comment not found" and changes nothing; otherwise the user joins the set, the counter rises only if the user was not in it, and the counter is returned |
| Db.Store.UnlikeComment | lib/server/db.ts:296-305 | an unknown id fails and changes nothing; otherwise the user leaves the set, the counter drops (never below 0) only if the user was in it, and the counter is returned |
| Db.LikersCounted | lib/server/db.ts:286-305 | on a valid store a comment's counter is at least its number of likers |
| Db.LikeUpdateKeepsValid | lib/server/db.ts:286-305 | replacing a like set and moving the counter by the change in its size keeps `likes - |likeSet|` fixed for every comment |
| RateLimit.Check | lib/server/rate-limit.ts:18-32 | a missing bucket or `now >= resetAt` (half-open window) starts `{1, now + windowMs}` and answers ok with `limit - 1` left; a full window refuses with 0 left, its `resetAt` and no change; otherwise the count rises by 1, `resetAt` stays and `max(0, limit - count)` is left; only the key's bucket changes |
| RateLimit.Run | lib/server/rate-limit.ts:18-32 | one answer per request in a series |
| RateLimit.WithinWindow | lib/server/rate-limit.ts:26-31 | inside a running window the i-th further request is admitted exactly when `count + i < limit`, reporting the same `resetAt` |
| RateLimit.AdmitsExactlyLimit | lib/server/rate-limit.ts:18-31 | for `limit >= 1`, a series inside one window is admitted for exactly its first `limit` requests |
| RateLimit.CheckKeepsCountsBounded | lib/server/rate-limit.ts:26-31 | no bucket ever counts more than `limit` (or 1) |
| RateLimit.KeysIndependent | lib/server/rate-limit.ts:20-30 | a request on one key never changes the answer on another |
| RateLimit.Reset | lib/server/rate-limit.ts:35-38 | no key clears every bucket; a key drops only its own |
| RateLimit.ResetReopens | lib/server/rate-limit.ts:21-25 | after a reset of its key the next request is admitted |
| RateLimit.Limiter.constructor | lib/server/rate-limit.ts:4-6 | the limiter starts with no buckets |
| RateLimit.Limiter.CheckRateLimit | lib/server/rate-limit.ts:18-32 | answer and new bucket map are those of `Check` |
| RateLimit.Limiter.ResetRateLimiter | lib/server/rate-limit.ts:35-38 | the new bucket map is that of `Reset` |
| ClientIp.FirstHop | lib/server/ip.ts:6 | the first comma-separated entry of x-forwarded-for, trimmed: no comma and no surrounding white space |
| ClientIp.GetClientIp | lib/server/ip.ts:5-10 | the forwarded entry when not blank, else trimmed x-real-ip when not blank, else "0.0.0.0"; never empty and never padded |
| ClientIp.ForwardedWins | lib/server/ip.ts:6-9 | a non-blank forwarded entry wins over x-real-ip |
| Time.UnitMs | lib/time.ts:1-51 | every unit lasts at least a second |
| Time.AgoBuckets | lib/time.ts:6-25 | `AgoSpanAsWritten` (the bucketing of `timeAgo` as written): the chained floors equal one floor by the unit's length, and the unit is the one whose range holds the elapsed time (s < 1m, m < 1h, h < 1d, d < 7d, w < 35d, mo < 360d, y from there) |
| Time.AgoZeroYears | lib/time.ts:21-25 | from 360 up to 365 days the bucket is zero years |
| Time.TimeAgoAsWritten | lib/time.ts:1-26 | the as-written caption, a future instant counting as no time |
| Time.ZeroYearsAgo | lib/time.ts:21-25 | a post 360 days old reads "0y ago" |
| Time.AgoSpanPositive | lib/time.ts:18-25 | `AgoSpan` is the bucketing with the year amount raised to at least 1. Its unit is still the one whose range holds the elapsed time; every caption past the first minute names a positive amount; below a year the amount is the floor in its unit; no caption overstates the elapsed time beyond rounding 360 to 364 days up to one year |
| Time.TimeAgo | lib/time.ts:1-26 | the caption of the corrected bucketing |
| Time.TimeAgoFuture | lib/time.ts:4-7 | an instant at or after `now` reads "0s ago" |
| Time.DurationBuckets | lib/time.ts:38-51 | `DurationSpan` (the bucketing of `humanDuration`): the chained ceilings equal one ceiling by the unit's length; weeks are never used; each unit covers exactly its range |
| Time.DurationCovers | lib/time.ts:38-51 | a positive duration never reads as zero, and the caption covers the whole duration |
| Time.HumanDurationForm | lib/time.ts:38-51 | `HumanDuration` (`humanDuration`) is the amount of `DurationSpan` in decimal followed by its unit's suffix, one of s, m, h, d, mo, y; `humanDuration(0)` is "0s" |
| Time.HumanPollTiming | lib/time.ts:28-36 | "Starts in" exactly when `now < start`, "Ends in" exactly when `start <= now <= end`, "Closed ... ago" exactly when `now > end`, each with the matching duration |
| Time.PollTimingNonZero | lib/time.ts:28-51 | only a poll at its exact end instant shows a zero duration |
| Auth.ToUrlSafe | lib/server/auth.ts:14-17 | each `+` becomes `-` and each `/` becomes `_`, trailing `=` are dropped; the result holds no `+`, `/` or trailing `=` |
| Auth.Pads | lib/server/auth.ts:21 | `"=".repeat(n)` |
| Auth.FromUrlSafe | lib/server/auth.ts:18-23 | the inverse replacements, padded with `=` to a multiple of 4 |
| Auth.UrlSafeRoundTrip | lib/server/auth.ts:14-23 | canonical base64 comes back unchanged from its URL-safe form |
| Auth.B64UrlEncode | lib/server/auth.ts:14-23 | `b64urlEncode`: with well-behaved libraries the result holds no `.`, and `B64UrlDecode` (`b64urlDecode`) gives the input back |
| Auth.Sign | lib/server/auth.ts:24-28 | `sign`: with well-behaved libraries the signature holds no `.`, so a token splits back into payload and signature |
| Auth.UrlSafeHasNoDot | lib/server/auth.ts:14-17 | URL-safe base64 holds no `.` |
| Auth.Verify | lib/server/auth.ts:37-51 | a missing or empty token gives none; a token is accepted only when it splits on `.` into exactly two parts and its second part is `sign` of the first; a correctly signed token whose first part does not decode gives none; one that decodes gives what `parse` makes of the decoded text |
| Auth.VerifiedIsSigned | lib/server/auth.ts:37-43 | an accepted token is a dot-free payload, a dot and the payload's signature |
| Auth.TamperedRejected | lib/server/auth.ts:42-43 | a token whose signature part is not `sign(payload)` is rejected |
| Auth.VerifyMint | lib/server/auth.ts:30-51 | `Mint` (`mintSessionToken`) round-trips: a minted token verifies to `{sub: userId, iat: floor(now / 1000)}` |
| Auth.SelectToken | lib/server/auth.ts:62-69 | an Authorization header starting with "bearer " in any case gives the characters after index 7; otherwise the session cookie |
| Auth.StartsWithLower | lib/server/auth.ts:64 | `s.toLowerCase().startsWith(prefix)` |
| Auth.BearerAnyCase | lib/server/auth.ts:64-65 | the scheme word is matched in any letter case |
| Auth.CurrentUser | lib/server/auth.ts:60-74 | no user when the selected token does not verify; when it verifies, the user that the payload's `sub` names (none when no user has that id) |
| Auth.BearerSignsIn | lib/server/auth.ts:60-74 | a minted token sent as a bearer credential signs in the user it was minted for |
| Auth.CookieSignsIn | lib/server/auth.ts:67-73 | without a bearer header, a minted token in the session cookie signs in the user it was minted for |
| Auth.Authenticate | lib/server/auth.ts:77-83 | the user found by email ignoring case, exactly when `sha256(password + salt)` equals the stored hash; otherwise none |
| Auth.FindNewUser | lib/server/db.ts:180-190 | a user appended under an unused email is the one found for it |
| Auth.AuthenticateAfterCreate | lib/server/auth.ts:77-83 | creating a user and then signing in with the same email in any case and the same password succeeds |
| Http.RetryAfterSeconds | app/api/polls/vote/route.ts:23 | `max(1, ceil((resetAt - now) / 1000))`: at least 1; waiting that long reaches the window's end and a second less would not |
| Http.TooMany | app/api/polls/vote/route.ts:21-24 | a 429 answer with the given message, whose Retry-After value is `RetryAfterSeconds(resetAt, now)` |
| VoteRoute.Screen | app/api/polls/vote/route.ts:28-42 | 404 exactly when the poll id is missing or no poll has it. For a found poll, in the handler's order: 403 "not started" exactly when `now < start`; 403 "ended" exactly when `start <= now` and `now > end`; the window includes both ends; 400 "no options" exactly when inside the window with no or an empty selection; 400 "exactly one" exactly when inside the window with a selection of a size other than 1 on a single-choice poll. An open gate names the poll `find` returns and the selection |
| VoteRoute.ScreenOpens | app/api/polls/vote/route.ts:28-42 | a known poll, inside its window, with a non-empty selection of the right size passes every check |
| VoteRoute.Decide | app/api/polls/vote/route.ts:28-61 | after the poll checks: 409 when the user has a record and `revote` is off; a revote carries the recorded selection; a first vote is for a user without a record |
| VoteRoute.RevoteWithoutRecord | app/api/polls/vote/route.ts:45-63 | `revote: true` from a user with no record is decided exactly like a first vote |
| VoteRoute.SecondVoteNeedsRevote | app/api/polls/vote/route.ts:45-56 | a user with a record is never treated as a first vote, and is accepted only as a revote |
| VoteRoute.RecordKeepsValid | app/api/polls/vote/route.ts:50-61 | decrement, increment and record keep the whole store valid |
| VoteRoute.ClampNeverFires | app/api/polls/vote/route.ts:53 | on a valid store, removing the recorded selection lowers each counter by exactly its hits, never reaching the clamp |
| VoteRoute.RevoteSameSelection | app/api/polls/vote/route.ts:50-56 | revoting the recorded selection leaves every counter as it was |
| VoteRoute.RevotedWitness | app/api/polls/vote/route.ts:53-54 | a decrement followed by an increment is a revote of the counters |
| VoteRoute.Record | app/api/polls/vote/route.ts:50-61 | a revote decrements the recorded selection and then increments the new one, a first vote only increments; the selection is recorded; only that poll's counters and that user's record change; the store stays valid |
| VoteRoute.Cast | app/api/polls/vote/route.ts:27-63 | a rejection answers its status and message and changes no counter or record; an accepted vote answers 200 with the updated poll |
| VoteRoute.Post | app/api/polls/vote/route.ts:14-63 | no user gives 401 with nothing touched; the limiter (`vote:` + address, 20 per 60000 ms) is charged before the poll is looked up; a refusal gives 429 with Retry-After and no store change; otherwise `Cast`'s outcome; the store stays valid |
| CommentsRoute.AnyContained | app/api/polls/comments/route.ts:12 | true exactly when some word is a substring of the text |
| CommentsRoute.ContainsProfanity | app/api/polls/comments/route.ts:8-13 | true exactly when the lower-cased text contains a banned word anywhere |
| CommentsRoute.HelloIsFiltered | app/api/polls/comments/route.ts:8-13 | "hello" is refused because it contains "hell" |
| CommentsRoute.LowerIdempotent | app/api/polls/comments/route.ts:11 | lower-casing twice is lower-casing once |
| CommentsRoute.ProfanityIgnoresCase | app/api/polls/comments/route.ts:10-13 | a text and its lower-cased form are judged alike |
| CommentsRoute.CheckBody | app/api/polls/comments/route.ts:44-56 | 400 exactly when a field is missing, the trimmed text is shorter than 3 or longer than 500 UTF-16 code units (JavaScript `length`), or contains a banned word; admitted text is the trimmed input, 3 to 500 code units long, with no banned word |
| CommentsRoute.BodyAdmitted | app/api/polls/comments/route.ts:44-56 | a body with both fields and clean text passes the body checks |
| CommentsRoute.Screen | app/api/polls/comments/route.ts:44-68 | body checks first, then 404 for a missing poll, 401 for no user, 403 for a user without a vote; only a voter on an existing poll with clean text gets through |
| CommentsRoute.SignInRequired | app/api/polls/comments/route.ts:61-62 | an anonymous caller with clean text on an existing poll gets 401 |
| CommentsRoute.VoteRequired | app/api/polls/comments/route.ts:65-68 | a signed-in caller with clean text on an existing poll who has not voted on it gets 403 "You must vote before commenting." |
| CommentsRoute.TextChecksFirst | app/api/polls/comments/route.ts:47-56 | a failing text gets the same 400 whatever the store and the caller |
| CommentsRoute.PollBeforeCaller | app/api/polls/comments/route.ts:58-62 | an unknown poll gets 404 before the caller is looked at |
| CommentsRoute.VoterAdmitted | app/api/polls/comments/route.ts:44-68 | clean text from a voter on an existing poll always reaches the limiter |
| CommentsRoute.Author | app/api/polls/comments/route.ts:78 | the email up to its first "@", or all of it when it has none |
| CommentsRoute.Submit | app/api/polls/comments/route.ts:64-80 | 403 unless the user voted, before the limiter; then the limiter (5 per 60000 ms), 429 with Retry-After on refusal; then the append of a 0-like comment, answered 201 with `likedByMe` false |
| CommentsRoute.Post | app/api/polls/comments/route.ts:40-84 | every refusal before the limiter charges nothing and appends nothing; an admitted comment charges `comment:` + address and is appended after all others with the trimmed text and the author from the email; selections never change; the store stays valid |
| CommentsRoute.SortParam | app/api/polls/comments/route.ts:21 | `sort` defaults to "newest" |
| CommentsRoute.LimitParam | app/api/polls/comments/route.ts:23 | `limit` defaults to 5 and is clamped to [1, 50] |
| CommentsRoute.Annotated | app/api/polls/comments/route.ts:32-35 | one view per comment, in order; `likedByMe` is false for an anonymous viewer and like-set membership otherwise |
| CommentsRoute.AnnotatePage | app/api/polls/comments/route.ts:32-35 | the loop builds exactly `Annotated`, and like sets read the same afterwards |
| CommentsRoute.Get | app/api/polls/comments/route.ts:18-38 | 400 without a poll id, 404 for an unknown poll, otherwise the total and the annotated page for the sort, offset (default 0) and clamped limit |
| LikeRoute.Dispatch | app/api/polls/comments/like/route.ts:35-50 | toggle exactly when `toggle` is set or `action` is missing or empty; like exactly when `action` is "like" without `toggle`; any other action unlikes |
| LikeRoute.Liked | lib/server/db.ts:286-295 | the user joins the like set; only this comment's counter may change; every other set and comment is unchanged; `likes - |likeSet|` is kept |
| LikeRoute.Unliked | lib/server/db.ts:296-305 | the user leaves the like set; only this comment's counter may change; `likes - |likeSet|` is kept whenever the counter covers the set |
| LikeRoute.LikedUpdate | lib/server/db.ts:286-295 | `Liked` is the set plus the user and the counter raised only for a new liker |
| LikeRoute.UnlikedUpdate | lib/server/db.ts:296-305 | `Unliked` is the set minus the user and the counter lowered (never below 0) only for a liker |
| LikeRoute.Toggled | app/api/polls/comments/like/route.ts:35-43 | the toggle flips the user's membership |
| LikeRoute.Applied | app/api/polls/comments/like/route.ts:35-50 | the dispatched action keeps the number of comments |
| LikeRoute.LikeIdempotent | app/api/polls/comments/like/route.ts:44-46 | liking twice is liking once |
| LikeRoute.ToggleTwice | app/api/polls/comments/like/route.ts:35-43 | two toggles in a row restore the counter and every like set |
| LikeRoute.LazySetForgotten | lib/server/db.ts:278-285 | the empty set that `hasUserLikedComment` inserts changes neither like nor unlike |
| LikeRoute.DoLike | lib/server/db.ts:286-295 | `likeComment` performs `Liked` and returns the new counter |
| LikeRoute.DoUnlike | lib/server/db.ts:296-305 | `unlikeComment` performs `Unliked` and returns the new counter |
| LikeRoute.Perform | app/api/polls/comments/like/route.ts:32-52 | the store becomes `Applied(action)`; `liked` is the user's membership afterwards and `likes` the counter afterwards |
| LikeRoute.Post | app/api/polls/comments/like/route.ts:7-56 | 400 without a comment id, 401 without a user, 404 for an unknown comment, all with nothing touched; then the limiter (`like:` + address, 20 per 60000 ms) with 429 and no like change on refusal; otherwise the dispatched action; the store stays valid |
| PollsRoute.KindOf | app/api/polls/route.ts:37-38 | only "single-choice" and "multi-select" are poll types |
| PollsRoute.KeptIffTrimmed | app/api/polls/route.ts:53 | a string category is kept exactly when its trimmed form is not empty |
| PollsRoute.FilterCategories | app/api/polls/route.ts:53 | the filter never adds categories |
| PollsRoute.FilterCounts | app/api/polls/route.ts:53 | a kept string survives as often as it occurs; nothing else survives |
| PollsRoute.FilterAppend | app/api/polls/route.ts:53 | the filter keeps order: it distributes over concatenation |
| PollsRoute.FilterKeepsCleanCategories | app/api/polls/route.ts:53 | categories that are all non-blank strings come out as they went in, untrimmed |
| PollsRoute.NewPoll | app/api/polls/route.ts:46-55 | the new poll has a fresh id, one option per text in order with fresh ids and 0 votes, the body's question, dates and type, the filtered categories ([] for a non-array) and `now` as creation time |
| PollsRoute.NewPollUnvoted | app/api/polls/route.ts:49 | every option of a new poll has 0 votes |
| PollsRoute.Post | app/api/polls/route.ts:14-58 | 400 with the store untouched unless the question is non-empty, there are at least 2 options, both dates are present and the type is known; otherwise the new poll is appended after every existing poll and answered 201; no sign-in is needed |
| ParticipantsRoute.DistinctVoters | app/api/polls/participants/route.ts:34 | the number of distinct user ids is at most the log's length and at least 1 for a non-empty log |
| ParticipantsRoute.DistinctBound | app/api/polls/participants/route.ts:34 | the set of user ids of a log has at most its length, and at least one element when the log is not empty |
| ParticipantsRoute.RepeatedVoterCountsOnce | app/api/polls/participants/route.ts:34 | a voter appearing again adds nothing |
| ParticipantsRoute.SumVotes | app/api/polls/participants/route.ts:41 | the sum of the vote counters, missing ones as 0; non-negative counters give a non-negative sum |
| ParticipantsRoute.MissingVotesCountZero | app/api/polls/participants/route.ts:41 | an option without `votes` adds the same as one with 0 |
| ParticipantsRoute.ParticipantCount | app/api/polls/participants/route.ts:26-29 | a numeric `participantsByPoll` entry wins over everything else |
| ParticipantsRoute.Get | app/api/polls/participants/route.ts:5-51 | 400 "Missing pollId" without a poll id; otherwise 200 with the count; never 404 |
| ParticipantsRoute.VoteLogCountsVoters | app/api/polls/participants/route.ts:32-36 | whenever the poll's own `participantsByPoll` entry is not a number (or the map is absent), a vote-log array for the poll is counted by distinct user ids: between 1 and its length when it is not empty |
| ParticipantsRoute.FallbackSumsVotes | app/api/polls/participants/route.ts:39-46 | when the poll has neither a numeric entry nor a vote-log array of its own: no `polls` array or no poll with the id gives 0; otherwise the first poll with the id gives its summed votes, or 0 when it has no options |
| ParticipantsRoute.AlwaysZeroHere | app/api/polls/participants/route.ts:15-23 | with no legacy global present, every request with a poll id is answered 0 |
| Strings.ToLower | lib/server/db.ts:181 | lower-casing keeps the length and maps each character |
| Strings.Trim | lib/server/ip.ts:6 | `trim()`: the string minus its leading and trailing white space |
| Strings.TrimEmptyIff | app/api/polls/route.ts:53 | trimming gives "" exactly when the string is all white space |
| Strings.Split | lib/server/ip.ts:6 | `split(sep)`: the parts between separators, joining back to the input |
| Strings.SplitFirst | app/api/polls/comments/route.ts:78 | the first part is the prefix up to the first separator |
| Strings.SplitPair | lib/server/auth.ts:39-41 | two separator-free parts joined by one separator split back into exactly those two |
| Strings.Contains | app/api/polls/comments/route.ts:12 | `includes`: the word occurs at some position |
| Strings.Utf16Length | app/api/polls/comments/route.ts:48-53 | JavaScript `length`: between the number of characters and twice it, and equal to it when no character is beyond U+FFFF |
| Strings.Utf16Astral | app/api/polls/comments/route.ts:48-53 | a character beyond U+FFFF counts 2: two U+1F600 emoji have length 4, "abc" has length 3 |
| Strings.NatToString | app/api/polls/comments/route.ts:49-52 | decimal digits without a leading zero |
| Strings.NatToStringValue | lib/time.ts:7-50 | the digits read back as the number |
| Numbers.FloorDiv | lib/time.ts:6-24 | `Math.floor(a / b)`: the largest q with `b * q <= a` |
| Numbers.CeilDiv | lib/time.ts:39-49 | `Math.ceil(a / b)`: the smallest q with `a <= b * q` |
| Numbers.FloorFloor | lib/time.ts:6-24 | flooring twice equals flooring once by the product |
| Numbers.CeilCeil | lib/time.ts:39-49 | taking the ceiling twice equals taking it once by the product |

## Left out

- The clock is one reading `now` per request. The source calls `Date.now()` again inside `checkRateLimit`, again for the Retry-After value (app/api/polls/vote/route.ts:23, app/api/polls/comments/route.ts:74, app/api/polls/comments/like/route.ts:28), and again in each seed helper. The model does not capture time passing between those reads.
- Concurrency: each handler runs as one atomic sequential method, as the single-threaded runtime executes it.
- The `catch` paths that answer 500 ("Internal Server Error", "Failed to post comment", "Failed to update like"), and the exceptions that reach them, are not modelled.
  - The participants handler's catch would answer 0. Among its inputs, a vote-log entry that is `null` is such a case, and the model has no such entry.
- JSON bodies are reduced to the fields the handlers read, with their types already decided.
  - A field of the wrong JSON type is absent (`None`) where the handler tests its type, and a truthy non-string `pollId` is not modelled.
  - `req.json()` failures are not modelled.
- Dates are integer milliseconds. `new Date(iso)`, ISO formatting and invalid dates (`NaN`) are not modelled. For the same reason query numbers are taken as already read: `Number("abc")` is not modelled.
- `toLowerCase` is modelled for the ASCII letters `A`-`Z` only: other characters are left unchanged, so non-ASCII case mappings are not modelled. (`trim` is complete: it removes exactly the ECMAScript WhiteSpace and LineTerminator characters.)
- SHA-256, HMAC-SHA256, base64, UTF-8, `uuid`, `JSON.stringify` and `JSON.parse` are uninterpreted functions. Tamper resistance of the signature is a cryptographic assumption and is not claimed.
- `Auth.Verify`: a payload is whatever `parse` returns, as the source casts without checking its fields.
- HTTP plumbing is left out: `NextResponse`, `cookies()`, `setSessionCookie`, `clearSessionCookie`, and the cookie options.
- `hashNewPassword` (lib/server/auth.ts:86-90) is not modelled: nothing in the core calls it.
- The admin-only branch of poll creation (app/api/polls/route.ts:19-26) is not modelled. It sits behind the constant `ADMIN_ONLY_CREATION = false`, so it never runs.
- Thin wrappers are not modelled: `GET /api/polls`, which returns the poll list, `getPolls`, and the login, logout, me, refresh, debug, register and has-voted routes.
- `VoteRoute.Cast`: its contract does not spell out each rejection's status code. `Settled` gives the answer as `Error(o.Status(), o.Message())` of the decided outcome, and `Outcome.Status` lists the codes.
- `Db.Store`: a poll or comment object held by a handler is modelled by its position in the store's sequence. Aliasing beyond that is not modelled: the source never keeps such an object across requests.
- `Db.SortComments` is a stable insertion sort, standing for the engine's stable `Array.prototype.sort`. Only the comparator order and the permutation are claimed, so elements the comparator ties are not claimed to keep their store order.

## Findings

| source | as written | input that shows it | evidently intended | confidence | as-written member | corrected member |
|---|---|---|---|---|---|---|
| lib/time.ts:21-25 | after the month bucket (`day / 30 < 12`), years are `floor(day / 365)` | an instant 360 to 364 days old reads "0y ago" | a caption that names at least 1 year once past the month range | not executed | Time.ZeroYearsAgo | Time.AgoSpanPositive |
