/**
 * The `create` mutation of src/server/api/routers/post.ts: the input schema
 * rejects bad content before the handler runs; the handler asks the rate
 * limiter about the caller, throws TOO_MANY_REQUESTS when it refuses, and
 * otherwise inserts exactly one post authored by the caller.
 */
module PostCreate {
  import opened Wrappers
  import opened PostData

  /** The limiter's configured policy: `tokens` requests per `windowMs` milliseconds, sliding. */
  datatype SlidingWindow = SlidingWindow(tokens: nat, windowMs: nat)

  /** `Ratelimit.slidingWindow(3, "1 m")`. */
  const RATE_LIMIT: SlidingWindow := SlidingWindow(3, 60_000)

  /** One call `ratelimit.limit(identifier)`, made at time `at`. */
  datatype LimitCall = LimitCall(identifier: string, at: int)

  /** The errors `create` reports: a schema failure (BAD_REQUEST) or a refused quota. */
  datatype CreateError = BadRequest(issues: seq<Issue>) | TooManyRequests

  /** The externally visible effects of the service, in the order they happen. */
  datatype Effect = RateLimitCall(call: LimitCall) | PostInsert(post: Post)

  /** The rate-limit calls of a trace, in order. */
  function LimitCallsOf(trace: seq<Effect>): seq<LimitCall>
  {
    if trace == [] then []
    else
      var last := trace[|trace| - 1];
      LimitCallsOf(trace[..|trace| - 1]) + (if last.RateLimitCall? then [last.call] else [])
  }

  /** The posts a trace inserts, in order. */
  function InsertsOf(trace: seq<Effect>): seq<Post>
  {
    if trace == [] then []
    else
      var last := trace[|trace| - 1];
      InsertsOf(trace[..|trace| - 1]) + (if last.PostInsert? then [last.post] else [])
  }

  /** The limiter calls of a trace are exactly its rate-limit effects. */
  lemma {:induction false} LimitCallsOfMembers(trace: seq<Effect>, c: LimitCall)
    ensures c in LimitCallsOf(trace) <==> RateLimitCall(c) in trace
  {
    if trace != [] {
      var init := trace[..|trace| - 1];
      LimitCallsOfMembers(init, c);
      assert trace == init + [trace[|trace| - 1]];
    }
  }

  /** The posts a trace inserts are exactly its insert effects. */
  lemma {:induction false} InsertsOfMembers(trace: seq<Effect>, p: Post)
    ensures p in InsertsOf(trace) <==> PostInsert(p) in trace
  {
    if trace != [] {
      var init := trace[..|trace| - 1];
      InsertsOfMembers(init, p);
      assert trace == init + [trace[|trace| - 1]];
    }
  }

  /**
   * Every insert of the trace comes right after a limiter call keyed by the
   * post's author, which the limiter allowed given the calls before it.
   */
  ghost predicate InsertsGated(trace: seq<Effect>, policy: SlidingWindow,
                               allow: (SlidingWindow, seq<LimitCall>, LimitCall) -> bool)
  {
    forall i :: 0 <= i < |trace| && trace[i].PostInsert? ==>
      i > 0 && trace[i - 1].RateLimitCall? && trace[i - 1].call.identifier == trace[i].post.authorId &&
      allow(policy, LimitCallsOf(trace[..i - 1]), trace[i - 1].call)
  }

  /** Appending an effect adds its call, if it is one, to the end of the trace's limiter calls. */
  lemma LimitCallsOfAppend(trace: seq<Effect>, e: Effect)
    ensures LimitCallsOf(trace + [e]) == LimitCallsOf(trace) + (if e.RateLimitCall? then [e.call] else [])
  {
  }

  /** Appending an effect adds its post, if it is an insert, to the end of the trace's inserts. */
  lemma InsertsOfAppend(trace: seq<Effect>, e: Effect)
    ensures InsertsOf(trace + [e]) == InsertsOf(trace) + (if e.PostInsert? then [e.post] else [])
  {
  }

  /**
   * Appending a limiter call keeps every insert gated; so does appending an
   * insert right after an allowed call keyed by its author.
   */
  lemma {:induction false} AppendKeepsGated(trace: seq<Effect>, e: Effect, policy: SlidingWindow,
                                            allow: (SlidingWindow, seq<LimitCall>, LimitCall) -> bool)
    requires InsertsGated(trace, policy, allow)
    requires e.PostInsert? ==>
      trace != [] && trace[|trace| - 1].RateLimitCall? &&
      trace[|trace| - 1].call.identifier == e.post.authorId &&
      allow(policy, LimitCallsOf(trace[..|trace| - 1]), trace[|trace| - 1].call)
    ensures InsertsGated(trace + [e], policy, allow)
  {
    var t := trace + [e];
    forall i | 0 <= i < |t| && t[i].PostInsert?
      ensures i > 0 && t[i - 1].RateLimitCall? && t[i - 1].call.identifier == t[i].post.authorId
      ensures allow(policy, LimitCallsOf(t[..i - 1]), t[i - 1].call)
    {
      if i < |trace| {
        assert t[i] == trace[i];
        assert i > 0;
        assert t[i - 1] == trace[i - 1];
        assert t[..i - 1] == trace[..i - 1];
      } else {
        assert t[i] == e;
        assert t[i - 1] == trace[|trace| - 1];
        assert t[..i - 1] == trace[..|trace| - 1];
      }
    }
  }

  /**
   * The post service with its external state: the post table, and the
   * history of calls the rate limiter has received. `allow` is the limiter's
   * verdict on a call given that history; `isEmoji` the schema's emoji check.
   */
  class PostRouter {
    var posts: seq<Post>
    var nextId: PostId
    var limitLog: seq<LimitCall>
    ghost var trace: seq<Effect>

    const policy: SlidingWindow
    const allow: (SlidingWindow, seq<LimitCall>, LimitCall) -> bool
    const isEmoji: Text -> bool

    /**
     * Every effect ever performed is in the trace; every insert comes right
     * after a limiter call keyed by its author that the limiter allowed; every stored post passed the schema; ids are distinct.
     */
    ghost predicate Valid()
      reads this
    {
      InsertsOf(trace) == posts &&
      LimitCallsOf(trace) == limitLog &&
      InsertsGated(trace, policy, allow) &&
      (forall i :: 0 <= i < |posts| ==> Accepted(posts[i].content, isEmoji) && posts[i].id < nextId) &&
      (forall i, j :: 0 <= i < j < |posts| ==> posts[i].id != posts[j].id)
    }

    /** A service over an empty post table and a limiter that has seen no call. */
    constructor (allow: (SlidingWindow, seq<LimitCall>, LimitCall) -> bool, isEmoji: Text -> bool)
      ensures Valid()
      ensures posts == [] && limitLog == [] && trace == []
      ensures this.policy == RATE_LIMIT && this.allow == allow && this.isEmoji == isEmoji
    {
      posts, nextId, limitLog := [], 0, [];
      trace := [];
      policy := RATE_LIMIT;
      this.allow, this.isEmoji := allow, isEmoji;
    }

    /** `ratelimit.limit(identifier)`: the call is recorded and the limiter's verdict returned. */
    method Limit(identifier: string, now: int) returns (success: bool)
      requires Valid()
      modifies this`limitLog, this`trace
      ensures Valid()
      ensures success == allow(policy, old(limitLog), LimitCall(identifier, now))
      ensures limitLog == old(limitLog) + [LimitCall(identifier, now)]
      ensures trace == old(trace) + [RateLimitCall(LimitCall(identifier, now))]
    {
      var call := LimitCall(identifier, now);
      success := allow(policy, limitLog, call);
      LimitCallsOfAppend(trace, RateLimitCall(call));
      InsertsOfAppend(trace, RateLimitCall(call));
      AppendKeepsGated(trace, RateLimitCall(call), policy, allow);
      limitLog := limitLog + [call];
      trace := trace + [RateLimitCall(call)];
    }

    /**
     * `prisma.post.create({ data: { authorId, content } })`: appends one post
     * with a fresh id, stamped `createdAt` by the database's clock. It is only
     * reached right after the limiter allowed a call keyed by `authorId`, with
     * accepted content.
     */
    method Insert(authorId: string, content: Text, createdAt: int) returns (post: Post)
      requires Valid()
      requires Accepted(content, isEmoji)
      requires trace != [] && trace[|trace| - 1].RateLimitCall?
      requires trace[|trace| - 1].call.identifier == authorId
      requires allow(policy, LimitCallsOf(trace[..|trace| - 1]), trace[|trace| - 1].call)
      modifies this`posts, this`nextId, this`trace
      ensures Valid()
      ensures post == Post(old(nextId), authorId, content, createdAt)
      ensures posts == old(posts) + [post] && nextId == old(nextId) + 1
      ensures trace == old(trace) + [PostInsert(post)]
    {
      post := Post(nextId, authorId, content, createdAt);
      LimitCallsOfAppend(trace, PostInsert(post));
      InsertsOfAppend(trace, PostInsert(post));
      AppendKeepsGated(trace, PostInsert(post), policy, allow);
      posts := posts + [post];
      nextId := nextId + 1;
      trace := trace + [PostInsert(post)];
    }

    /**
     * `create` for the authenticated caller `userId`. The limiter is asked at
     * its time `now`; the database stamps the post with `createdAt` from its
     * own clock. Content the schema rejects fails with BAD_REQUEST and changes
     * nothing, not even the limiter's history. Valid content consumes exactly
     * one limiter call, keyed by `userId`, before anything else; a refusal
     * fails with TOO_MANY_REQUESTS and leaves the post table as it was;
     * otherwise exactly one post, authored by `userId` with the given content,
     * is appended and returned.
     */
    method Create(userId: string, content: Text, now: int, createdAt: int) returns (r: Result<Post, CreateError>)
      requires Valid()
      modifies this
      ensures Valid()
      ensures !Accepted(content, isEmoji) ==>
        r == Failure(BadRequest(Validate(content, isEmoji))) &&
        posts == old(posts) && nextId == old(nextId) && limitLog == old(limitLog) && trace == old(trace)
      ensures Accepted(content, isEmoji) ==>
        limitLog == old(limitLog) + [LimitCall(userId, now)]
      ensures Accepted(content, isEmoji) && !allow(policy, old(limitLog), LimitCall(userId, now)) ==>
        r == Failure(TooManyRequests) &&
        posts == old(posts) && nextId == old(nextId) &&
        trace == old(trace) + [RateLimitCall(LimitCall(userId, now))]
      ensures Accepted(content, isEmoji) && allow(policy, old(limitLog), LimitCall(userId, now)) ==>
        r.Success? &&
        r.value == Post(old(nextId), userId, content, createdAt) &&
        posts == old(posts) + [r.value] && nextId == old(nextId) + 1 &&
        trace == old(trace) + [RateLimitCall(LimitCall(userId, now)), PostInsert(r.value)]
    {
      var issues := Validate(content, isEmoji);
      if issues != [] {
        return Failure(BadRequest(issues));
      }
      var authorId := userId;
      var success := Limit(authorId, now);
      if !success {
        return Failure(TooManyRequests);
      }
      assert trace[..|trace| - 1] == old(trace);
      var post := Insert(authorId, content, createdAt);
      return Success(post);
    }
  }
}
