/** `POST /api/polls`: validates a new poll's fields, builds the poll
    (fresh ids, every counter at 0, the non-blank string categories) and
    appends it to the store. Creation is open to anyone: the admin-only
    switch of the route is off. */
module PollsRoute {
  import opened Wrappers
  import opened Strings
  import opened Db
  import opened Http

  /** An element of the `categories` array: a string, or any other JSON value. */
  datatype CategoryValue = CatString(s: string) | CatOther

  /** The JSON body, each field as the handler tests it: `question` and
      `type` are strings ("" when absent), `options` and `categories` are
      `None` when they are not arrays, and the dates are `None` when absent
      or empty, their ISO text already read as instants. */
  datatype PollBody = PollBody(
    question: string,
    options: Option<seq<string>>,
    startDate: Option<int>,
    endDate: Option<int>,
    kind: string,
    categories: Option<seq<CategoryValue>>)

  const INVALID := "Invalid poll data. Question, options, start/end dates, and a valid type are required."

  /** `type` names one of the two poll kinds. */
  function KindOf(kind: string): (k: Option<PollType>)
    ensures k == Some(SingleChoice) <==> kind == "single-choice"
    ensures k == Some(MultiSelect) <==> kind == "multi-select"
  {
    if kind == "single-choice" then Some(SingleChoice)
    else if kind == "multi-select" then Some(MultiSelect)
    else None
  }

  /** The handler's validation: a non-empty question, at least two
      options, both dates, a known type. Nothing more is checked: the end
      may precede the start, and option texts may repeat or be blank. */
  predicate ValidBody(b: PollBody) {
    && b.question != ""
    && b.options.Some? && |b.options.value| >= 2
    && b.startDate.Some? && b.endDate.Some?
    && KindOf(b.kind).Some?
  }

  /** The filter's test: a string that is not all spaces, that is (by
      `KeptIffTrimmed`), one whose trimmed form is not empty. */
  predicate Kept(c: CategoryValue) {
    c.CatString? && !AllSpace(c.s)
  }

  lemma KeptIffTrimmed(c: CategoryValue)
    ensures Kept(c) <==> c.CatString? && Trim(c.s) != []
  {
    if c.CatString? {
      TrimEmptyIff(c.s);
    }
  }

  /** `categories.filter(c => typeof c === "string" && c.trim())`: the
      strings whose trimmed form is not empty, kept untrimmed and in
      order. */
  function FilterCategories(cats: seq<CategoryValue>): (r: seq<string>)
    ensures |r| <= |cats|
  {
    if cats == [] then []
    else if Kept(cats[0]) then [cats[0].s] + FilterCategories(cats[1..])
    else FilterCategories(cats[1..])
  }

  /** Exactly the kept strings survive, each as often as in the input. */
  lemma {:induction false} FilterCounts(cats: seq<CategoryValue>, s: string)
    ensures multiset(FilterCategories(cats))[s] == if Kept(CatString(s)) then multiset(cats)[CatString(s)] else 0
  {
    if cats != [] {
      assert cats == [cats[0]] + cats[1..];
      FilterCounts(cats[1..], s);
    }
  }

  /** The filter keeps order: filtering a concatenation concatenates the
      filtered parts. */
  lemma {:induction false} FilterAppend(a: seq<CategoryValue>, b: seq<CategoryValue>)
    ensures FilterCategories(a + b) == FilterCategories(a) + FilterCategories(b)
  {
    if a == [] {
      assert a + b == b;
    } else {
      assert (a + b)[1..] == a[1..] + b;
      assert (a + b)[0] == a[0];
      FilterAppend(a[1..], b);
    }
  }

  /** Categories that are all non-blank strings are kept as they are. */
  lemma {:induction false} FilterKeepsCleanCategories(cats: seq<string>)
    requires forall i :: 0 <= i < |cats| ==> Kept(CatString(cats[i]))
    ensures FilterCategories(seq(|cats|, i requires 0 <= i < |cats| => CatString(cats[i]))) == cats
  {
    var wrapped := seq(|cats|, i requires 0 <= i < |cats| => CatString(cats[i]));
    if cats != [] {
      var tail := seq(|cats| - 1, i requires 0 <= i < |cats| - 1 => CatString(cats[1..][i]));
      assert wrapped[1..] == tail;
      FilterKeepsCleanCategories(cats[1..]);
      assert cats == [cats[0]] + cats[1..];
    }
  }

  /** The poll the handler builds from a valid body: `uuid(0)` is its id
      and `uuid(k + 1)` the id of option `k` (the order the handler asks
      for them); one option per text, in order, every counter at 0;
      the body's question, dates and type; the filtered categories (none
      when they are not an array); created at `now`. */
  function NewPoll(b: PollBody, uuid: nat -> string, now: int): (p: Poll)
    requires ValidBody(b)
    ensures p.id == uuid(0) && p.question == b.question
    ensures |p.options| == |b.options.value| >= 2
    ensures forall k :: 0 <= k < |p.options| ==> p.options[k] == PollOption(uuid(k + 1), b.options.value[k], 0)
    ensures p.startDate == b.startDate.value && p.endDate == b.endDate.value
    ensures Some(p.kind) == KindOf(b.kind)
    ensures b.categories.None? ==> p.categories == []
    ensures b.categories.Some? ==> p.categories == FilterCategories(b.categories.value)
    ensures p.createdAt == now
  {
    var texts := b.options.value;
    Poll(uuid(0), b.question,
         seq(|texts|, k requires 0 <= k < |texts| => PollOption(uuid(k + 1), texts[k], 0)),
         b.startDate.value, b.endDate.value, KindOf(b.kind).value,
         if b.categories.Some? then FilterCategories(b.categories.value) else [],
         now)
  }

  /** A new poll has no votes yet. */
  lemma NewPollUnvoted(b: PollBody, uuid: nat -> string, now: int)
    requires ValidBody(b)
    ensures NonNegativeCounters(NewPoll(b, uuid, now))
    ensures forall k :: 0 <= k < |NewPoll(b, uuid, now).options| ==> NewPoll(b, uuid, now).options[k].votes == 0
  {
  }

  /** `POST(req)`: 400 for an invalid body, with the store untouched;
      otherwise the new poll is appended after every existing poll and
      answered with 201. A valid store stays valid. */
  method Post(db: Store, body: PollBody, uuid: nat -> string, now: int) returns (resp: Response<Poll>)
    modifies db`polls, db`baseVotes
    ensures !ValidBody(body) ==> resp == Error(400, INVALID) && db.polls == old(db.polls)
    ensures ValidBody(body) ==>
      resp == Json(201, NewPoll(body, uuid, now)) && db.polls == old(db.polls) + [NewPoll(body, uuid, now)]
    ensures old(db.Valid()) ==> db.Valid()
  {
    if !(body.question != "" && body.options.Some? && |body.options.value| >= 2
         && body.startDate.Some? && body.endDate.Some? && KindOf(body.kind).Some?) {
      return Error(400, INVALID);
    }
    var poll := NewPoll(body, uuid, now);
    db.AddPoll(poll);
    resp := Json(201, poll);
  }
}
