/**
 * The repository client's own decisions: when to wait for the API rate limit
 * to reset, how a failed API call is turned into a fallback value, and how a
 * user's comments on an issue are counted. The API itself is a parameter:
 * each call's outcome is given, and the client's steps are returned in order.
 */
module GitHubClient {
  import opened Wrappers
  import Records

  /** Below this many remaining core requests the client waits for the reset. */
  const ThrottleThreshold: int := 10

  /** The core rate-limit state: requests remaining and the reset time (seconds). */
  datatype RateLimit = RateLimit(remaining: int, resetAt: int)

  /**
   * The seconds `_check_rate_limit` sleeps, or None when it does not sleep.
   * `limit` is None when reading the rate limit raised: the error is logged
   * and swallowed, and no sleep happens.
   */
  function ThrottleSleep(limit: Option<RateLimit>, now: int): (r: Option<int>)
    ensures r.Some? <==> limit.Some? && limit.value.remaining < ThrottleThreshold && limit.value.resetAt > now
    ensures r.Some? ==> now + r.value == limit.value.resetAt + 1 && r.value >= 2
  {
    match limit
    case None => None
    case Some(rl) =>
      if rl.remaining < ThrottleThreshold && rl.resetAt - now > 0 then Some(rl.resetAt - now + 1)
      else None
  }

  /** Sleeping as decided always ends strictly after the reset time. */
  lemma ThrottleWakesAfterReset(limit: Option<RateLimit>, now: int)
    requires limit.Some? && limit.value.remaining < ThrottleThreshold && limit.value.resetAt > now
    ensures ThrottleSleep(limit, now).Some?
    ensures now + ThrottleSleep(limit, now).value > limit.value.resetAt
  {
  }

  /** The outcome of one PyGithub call: a value, a `GithubException`, or any other exception. */
  datatype ApiOutcome<T> = Ok(value: T) | GithubError | OtherError

  /** What a wrapper does for its caller: return a value, or let an exception escape. */
  datatype Reply<T> = Returned(value: T) | Raised

  /** The repository operation a wrapper performs. */
  datatype Operation =
    | GetIssue(issue: int)
    | GetPull(pr: int)
    | ListComments(issue: int)
    | CreateComment(target: int, text: string)
    | AddAssignee(issue: int, user: string)

  /** One step of the client: a rate-limit check (with the sleep it chose), or an API call. */
  datatype Step = CheckRate(sleep: Option<int>) | Call(op: Operation)

  /**
   * Every wrapper's shape: check the rate limit, then call the API; a
   * `GithubException` becomes the wrapper's fallback value, any other
   * exception escapes.
   */
  function Guarded<T>(limit: Option<RateLimit>, now: int, op: Operation, outcome: ApiOutcome<T>, fallback: T)
    : (r: (seq<Step>, Reply<T>))
    ensures |r.0| == 2 && r.0[0].CheckRate? && r.0[1] == Call(op)
    ensures r.0[0].sleep == ThrottleSleep(limit, now)
    ensures r.1.Raised? <==> outcome.OtherError?
    ensures outcome.Ok? ==> r.1 == Returned(outcome.value)
    ensures outcome.GithubError? ==> r.1 == Returned(fallback)
  {
    var steps := [CheckRate(ThrottleSleep(limit, now)), Call(op)];
    match outcome
    case Ok(v) => (steps, Returned(v))
    case GithubError => (steps, Returned(fallback))
    case OtherError => (steps, Raised)
  }

  /** `get_issue`: the issue, or None on an API error. */
  function FetchIssue(limit: Option<RateLimit>, now: int, number: int, outcome: ApiOutcome<Records.Issue>)
    : (r: (seq<Step>, Reply<Option<Records.Issue>>))
    ensures r.0 == [CheckRate(ThrottleSleep(limit, now)), Call(GetIssue(number))]
    ensures r.1 == Returned(None) <==> outcome.GithubError?
    ensures outcome.Ok? <==> r.1.Returned? && r.1.value.Some?
  {
    var o := match outcome
      case Ok(v) => Ok(Some(v))
      case GithubError => GithubError
      case OtherError => OtherError;
    Guarded(limit, now, GetIssue(number), o, None)
  }

  /** `get_pull_request`: the pull request, or None on an API error. */
  function FetchPull(limit: Option<RateLimit>, now: int, number: int, outcome: ApiOutcome<Records.PullRequest>)
    : (r: (seq<Step>, Reply<Option<Records.PullRequest>>))
    ensures r.0 == [CheckRate(ThrottleSleep(limit, now)), Call(GetPull(number))]
    ensures r.1 == Returned(None) <==> outcome.GithubError?
    ensures outcome.Ok? <==> r.1.Returned? && r.1.value.Some?
  {
    var o := match outcome
      case Ok(v) => Ok(Some(v))
      case GithubError => GithubError
      case OtherError => OtherError;
    Guarded(limit, now, GetPull(number), o, None)
  }

  /** `get_issue_comments`: the comments, or [] on an API error. */
  function FetchComments(limit: Option<RateLimit>, now: int, number: int, outcome: ApiOutcome<seq<Records.Comment>>)
    : (r: (seq<Step>, Reply<seq<Records.Comment>>))
    ensures r.0 == [CheckRate(ThrottleSleep(limit, now)), Call(ListComments(number))]
    ensures outcome.GithubError? ==> r.1 == Returned([])
    ensures outcome.Ok? ==> r.1 == Returned(outcome.value)
    ensures r.1.Raised? <==> outcome.OtherError?
  {
    Guarded(limit, now, ListComments(number), outcome, [])
  }

  /** `add_comment`: whether the comment was created; False on an API error. */
  function AddComment(limit: Option<RateLimit>, now: int, target: int, text: string, outcome: ApiOutcome<()>)
    : (r: (seq<Step>, Reply<bool>))
    ensures r.0 == [CheckRate(ThrottleSleep(limit, now)), Call(CreateComment(target, text))]
    ensures r.1 == Returned(true) <==> outcome.Ok?
    ensures r.1 == Returned(false) <==> outcome.GithubError?
  {
    var o: ApiOutcome<bool> := match outcome
      case Ok(_) => Ok(true)
      case GithubError => GithubError
      case OtherError => OtherError;
    Guarded(limit, now, CreateComment(target, text), o, false)
  }

  /** `assign_issue`: whether the user was added as an assignee; False on an API error. */
  function AssignIssue(limit: Option<RateLimit>, now: int, issue: int, user: string, outcome: ApiOutcome<()>)
    : (r: (seq<Step>, Reply<bool>))
    ensures r.0 == [CheckRate(ThrottleSleep(limit, now)), Call(AddAssignee(issue, user))]
    ensures r.1 == Returned(true) <==> outcome.Ok?
    ensures r.1 == Returned(false) <==> outcome.GithubError?
  {
    var o: ApiOutcome<bool> := match outcome
      case Ok(_) => Ok(true)
      case GithubError => GithubError
      case OtherError => OtherError;
    Guarded(limit, now, AddAssignee(issue, user), o, false)
  }

  /** Every API call of a wrapper trace is immediately preceded by a rate-limit check. */
  predicate CheckedBeforeCalls(steps: seq<Step>) {
    forall k :: 0 <= k < |steps| && steps[k].Call? ==> k > 0 && steps[k - 1].CheckRate?
  }

  /** Any sequence of wrapper calls keeps every API call behind a rate-limit check. */
  lemma {:induction false} WrapperTracesChecked(traces: seq<seq<Step>>)
    requires forall t :: 0 <= t < |traces| ==> |traces[t]| == 2 && traces[t][0].CheckRate? && traces[t][1].Call?
    ensures CheckedBeforeCalls(Concat(traces))
    ensures |Concat(traces)| == 2 * |traces|
  {
    if |traces| > 0 {
      var init := traces[..|traces| - 1];
      WrapperTracesChecked(init);
      var last := traces[|traces| - 1];
      assert Concat(traces) == Concat(init) + last;
      var all := Concat(traces);
      forall k | 0 <= k < |all| && all[k].Call?
        ensures k > 0 && all[k - 1].CheckRate?
      {
        if k < |Concat(init)| {
          assert all[k] == Concat(init)[k];
          assert all[k - 1] == Concat(init)[k - 1];
        } else {
          assert all[k] == last[k - |Concat(init)|];
        }
      }
    }
  }

  /** The steps of several wrapper calls, one after the other. */
  function Concat(traces: seq<seq<Step>>): seq<Step>
  {
    if |traces| == 0 then [] else Concat(traces[..|traces| - 1]) + traces[|traces| - 1]
  }

  /** The number of comments whose author login is exactly `user`. */
  function CountBy(comments: seq<Records.Comment>, user: string): (n: nat)
    ensures n <= |comments|
  {
    if |comments| == 0 then 0
    else CountBy(comments[..|comments| - 1], user) + (if comments[|comments| - 1].author == user then 1 else 0)
  }

  /** Counting distributes over concatenation of comment lists. */
  lemma {:induction false} CountByAppend(a: seq<Records.Comment>, b: seq<Records.Comment>, user: string)
    ensures CountBy(a + b, user) == CountBy(a, user) + CountBy(b, user)
    decreases |b|
  {
    if |b| == 0 {
      assert a + b == a;
    } else {
      var b' := b[..|b| - 1];
      assert (a + b)[..|a + b| - 1] == a + b';
      CountByAppend(a, b', user);
    }
  }

  /** A user has a positive count exactly when some comment is theirs. */
  lemma {:induction false} CountByPositive(comments: seq<Records.Comment>, user: string)
    ensures CountBy(comments, user) > 0 <==> exists k :: 0 <= k < |comments| && comments[k].author == user
  {
    if |comments| > 0 {
      var pre := comments[..|comments| - 1];
      CountByPositive(pre, user);
      if exists k :: 0 <= k < |pre| && pre[k].author == user {
        var k :| 0 <= k < |pre| && pre[k].author == user;
        assert comments[k] == pre[k];
      }
      if exists k :: 0 <= k < |comments| && comments[k].author == user {
        var k :| 0 <= k < |comments| && comments[k].author == user;
        if k < |pre| {
          assert pre[k] == comments[k];
        }
      }
    }
  }

  /** The positions holding one of the user's comments. */
  function Positions(comments: seq<Records.Comment>, user: string): set<int> {
    set k | 0 <= k < |comments| && comments[k].author == user
  }

  /** Dropping the last comment drops at most its own position. */
  lemma PositionsStep(comments: seq<Records.Comment>, user: string)
    requires |comments| > 0
    ensures var n := |comments|;
      Positions(comments, user)
      == Positions(comments[..n - 1], user) + (if comments[n - 1].author == user then {n - 1} else {})
  {
    var n := |comments|;
    assert forall k :: 0 <= k < n - 1 ==> comments[..n - 1][k] == comments[k];
  }

  /** Every position lies below the length, so the last one is never counted twice. */
  lemma PositionsBelow(comments: seq<Records.Comment>, user: string)
    ensures forall k :: k in Positions(comments, user) ==> 0 <= k < |comments|
  {
  }

  /** The count is the number of positions holding one of the user's comments. */
  lemma {:induction false} CountByIsCardinality(comments: seq<Records.Comment>, user: string)
    ensures CountBy(comments, user) == |Positions(comments, user)|
  {
    if |comments| > 0 {
      var n := |comments|;
      var pre := comments[..n - 1];
      CountByIsCardinality(pre, user);
      PositionsStep(comments, user);
      PositionsBelow(pre, user);
      assert n - 1 !in Positions(pre, user);
    }
  }

  /**
   * `get_user_comment_count`: the count over the fetched comments; a
   * `GithubException` while listing yields the empty list and so 0, and any
   * other exception is caught and yields 0.
   */
  function UserCommentCount(outcome: ApiOutcome<seq<Records.Comment>>, user: string): (n: nat)
    ensures outcome.Ok? ==> n == CountBy(outcome.value, user)
    ensures !outcome.Ok? ==> n == 0
  {
    match outcome
    case Ok(cs) => CountBy(cs, user)
    case GithubError => CountBy([], user)
    case OtherError => 0
  }
}
