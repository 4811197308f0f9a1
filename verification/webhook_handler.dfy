/**
 * The webhook handler: signature verification, the event dispatch table and
 * the per-event routing of a payload to the issue and pull-request managers.
 *
 * Routing is a pure function from the payload and the outcomes of the
 * repository reads to a `Route`: the reads performed, in order, and the
 * manager call they lead to (or the result reached without one). The
 * handlers then perform the route. Payload fields that Python reads with
 * `.get` are `Option`s; a value counts as present only when it is truthy.
 */
module WebhookHandler {
  import opened Wrappers
  import opened Text
  import opened Records
  import GitHubClient
  import Ranking
  import IssueManager
  import PRManager
  import AIService
  import Phrases

  /** A request body: raw bytes. */
  type Bytes = seq<bv8>

  /** HMAC-SHA256 (RFC 2104 over FIPS 180-4) of a body under a secret, hex-encoded; left uninterpreted. */
  type HexHmac = (string, Bytes) -> string

  /** The value the `X-Hub-Signature-256` header must carry. */
  function ExpectedSignature(secret: string, body: Bytes, hexHmac: HexHmac): string {
    "sha256=" + hexHmac(secret, body)
  }

  /**
   * `verify_signature`: false without a (non-empty) header; otherwise whether
   * the header equals the expected signature. None when the comparison
   * raises: `hmac.compare_digest` refuses a string that is not ASCII.
   */
  function VerifySignature(header: Option<string>, secret: string, body: Bytes, hexHmac: HexHmac)
    : (r: Option<bool>)
    ensures header.None? || header == Some("") ==> r == Some(false)
    ensures r == Some(true) <==>
      header.Some? && header.value == ExpectedSignature(secret, body, hexHmac) && IsAscii(header.value)
    ensures r.None? <==>
      header.Some? && header.value != "" && !(IsAscii(header.value) && IsAscii(ExpectedSignature(secret, body, hexHmac)))
  {
    if header.None? || header.value == "" then Some(false)
    else
      var expected := ExpectedSignature(secret, body, hexHmac);
      if !IsAscii(header.value) || !IsAscii(expected) then None
      else Some(header.value == expected)
  }

  /** Between ASCII texts the check is plain equality with the expected signature. */
  lemma SignatureAcceptsOnlyExpected(header: string, secret: string, body: Bytes, hexHmac: HexHmac)
    requires header != "" && IsAscii(header) && IsAscii(ExpectedSignature(secret, body, hexHmac))
    ensures VerifySignature(Some(header), secret, body, hexHmac) == Some(header == ExpectedSignature(secret, body, hexHmac))
  {
  }

  /** Python truthiness of an optional number: present and non-zero. */
  predicate TruthyNumber(n: Option<int>) {
    n.Some? && n.value != 0
  }

  /** The `requested_reviewer` field: absent, JSON null, or an object with an optional login. */
  datatype Reviewer = NoReviewer | NullReviewer | ReviewerObject(login: Option<string>)

  /** The payload fields the handlers read. */
  datatype Payload = Payload(
    action: Option<string>,
    repoFullName: Option<string>,
    issueNumber: Option<int>,
    issueIsPullRequest: bool,
    commentBody: string,
    commentAuthor: string,
    prNumber: Option<int>,
    reviewer: Reviewer)

  /** The outcome of looking a repository up by full name. */
  datatype RepoLookup = Found | NotFound | LookupRaised

  /**
   * The outcomes of every collaborator call a delivery can make: the
   * repository lookup, the issue, pull-request and comment reads, and the
   * managers' own collaborators (the thread the assignment flow reads, the
   * comment counts, the assignment, the assistant's replies, and whether a
   * pull-request reply was posted).
   */
  datatype World = World(
    repo: RepoLookup,
    issue: GitHubClient.Reply<Option<Issue>>,
    pr: GitHubClient.Reply<Option<PullRequest>>,
    thread: GitHubClient.Reply<seq<Comment>>,
    assignThread: GitHubClient.Reply<seq<Comment>>,
    count: Ranking.Counts,
    assignResult: GitHubClient.Reply<bool>,
    replies: nat -> Option<string>,
    posted: bool,
    welcomed: bool,
    congratulated: bool)

  /** Where an `issue_comment` delivery goes after its reads. */
  datatype CommentRoute =
    | CommentRejected(fetched: seq<Effect>)
    | ToPrComment(fetched: seq<Effect>, pr: PullRequest, comment: Comment)
    | ToIssueComment(fetched: seq<Effect>, issue: Issue, comment: Comment)

  /** The repository is looked up only for a truthy full name, and used only when found. */
  predicate RepoFound(p: Payload, w: World) {
    Truthy(p.repoFullName) && w.repo == Found
  }

  /** `handle_issue_comment` up to the manager call. */
  function RouteIssueComment(p: Payload, w: World): (r: CommentRoute)
    ensures p.action != Some("created") ==> r == CommentRejected([])
    ensures p.action == Some("created") && !Truthy(p.repoFullName) ==> r == CommentRejected([])
    ensures |r.fetched| > 0 ==> r.fetched[0] == FetchRepository(p.repoFullName.value)
    ensures r.ToPrComment? <==>
      p.action == Some("created") && RepoFound(p, w) && TruthyNumber(p.issueNumber)
      && p.issueIsPullRequest && w.pr.Returned? && w.pr.value.Some?
    ensures r.ToIssueComment? <==>
      p.action == Some("created") && RepoFound(p, w) && TruthyNumber(p.issueNumber)
      && !p.issueIsPullRequest && w.issue.Returned? && w.issue.value.Some?
      && w.thread.Returned? && w.thread.value != []
    ensures r.ToPrComment? ==> r.comment == Comment(p.commentAuthor, p.commentBody, 0) && r.pr == w.pr.value.value
    ensures r.ToIssueComment? ==>
      r.issue == w.issue.value.value && r.comment == w.thread.value[|w.thread.value| - 1]
  {
    if p.action != Some("created") || !Truthy(p.repoFullName) then CommentRejected([])
    else
      var repo := [FetchRepository(p.repoFullName.value)];
      if w.repo != Found || !TruthyNumber(p.issueNumber) then CommentRejected(repo)
      else
        var n := p.issueNumber.value;
        if p.issueIsPullRequest then
          var fetched := repo + [FetchPullRequest(n)];
          if w.pr.Returned? && w.pr.value.Some? then
            ToPrComment(fetched, w.pr.value.value, Comment(p.commentAuthor, p.commentBody, 0))
          else CommentRejected(fetched)
        else
          var fetched := repo + [FetchIssue(n)];
          if w.issue.Returned? && w.issue.value.Some? then
            var fetched' := fetched + [FetchComments(n)];
            if w.thread.Returned? && w.thread.value != [] then
              ToIssueComment(fetched', w.issue.value.value, w.thread.value[|w.thread.value| - 1])
            else CommentRejected(fetched')
          else CommentRejected(fetched)
  }

  /** A read of the repository; none of these writes anything. */
  predicate IsRead(e: Effect) {
    e.FetchRepository? || e.FetchIssue? || e.FetchPullRequest? || e.FetchComments?
  }

  /**
   * Routing only reads; an action other than "created" is rejected whatever
   * the repository would have answered.
   */
  lemma CommentRoutingReadsOnly(p: Payload, w: World, w': World)
    ensures forall k :: 0 <= k < |RouteIssueComment(p, w).fetched| ==> IsRead(RouteIssueComment(p, w).fetched[k])
    ensures p.action != Some("created") ==> RouteIssueComment(p, w) == RouteIssueComment(p, w')
  {
  }

  /**
   * The truth value `handle_issue_comment` returns: False for a refused
   * route; for a pull-request thread, whether a non-bot's comment got an AI
   * reply that was posted; for an issue, False from a bot, the assignment
   * flow's result for a request, and otherwise whether the assistant replied.
   */
  function IssueCommentResult(p: Payload, w: World): (r: bool)
    ensures p.action != Some("created") || !Truthy(p.repoFullName) || w.repo != Found ==> !r
    ensures r ==> !RouteIssueComment(p, w).CommentRejected?
  {
    match RouteIssueComment(p, w)
    case CommentRejected(_) => false
    case ToPrComment(_, _, c) =>
      !PRManager.IsBot(c.author) && AIService.FirstReply(w.replies, 0, AIService.DefaultMaxRetries).Some? && w.posted
    case ToIssueComment(_, issue, c) =>
      if IssueManager.IsBot(c.author) then false
      else if Phrases.IsAssignmentRequest(c.body) then
        IssueManager.AssignmentFlow(issue, w.assignThread, w.count, w.assignResult).handled
      else AIService.FirstReply(w.replies, 0, AIService.DefaultMaxRetries).Some?
  }

  /**
   * `handle_issue_comment`: perform the route; a rejected route is False with
   * only its reads, otherwise the chosen manager handles the comment after the
   * reads.
   */
  method HandleIssueComment(p: Payload, w: World) returns (r: bool, log: seq<Effect>)
    ensures r == IssueCommentResult(p, w)
    ensures RouteIssueComment(p, w).CommentRejected? ==> !r && log == RouteIssueComment(p, w).fetched
    ensures |RouteIssueComment(p, w).fetched| <= |log| && log[..|RouteIssueComment(p, w).fetched|] == RouteIssueComment(p, w).fetched
    ensures RouteIssueComment(p, w).ToPrComment? ==>
      (r <==> AIService.FirstReply(w.replies, 0, AIService.DefaultMaxRetries).Some? && w.posted
              && !PRManager.IsBot(p.commentAuthor))
    ensures RouteIssueComment(p, w).ToIssueComment? ==>
      var c := RouteIssueComment(p, w).comment;
      && (IssueManager.IsBot(c.author) ==> !r)
      && (!IssueManager.IsBot(c.author) && Phrases.IsAssignmentRequest(c.body) ==>
            r == IssueManager.AssignmentFlow(RouteIssueComment(p, w).issue, w.assignThread, w.count, w.assignResult).handled)
      && (!IssueManager.IsBot(c.author) && !Phrases.IsAssignmentRequest(c.body) ==>
            (r <==> AIService.FirstReply(w.replies, 0, AIService.DefaultMaxRetries).Some?))
  {
    var route := RouteIssueComment(p, w);
    match route
    case CommentRejected(fetched) =>
      r, log := false, fetched;
    case ToPrComment(fetched, pr, comment) =>
      var more;
      r, more := PRManager.HandleComment(pr, comment, w.replies, w.posted);
      log := fetched + more;
    case ToIssueComment(fetched, issue, comment) =>
      var more;
      r, more := IssueManager.HandleComment(issue, comment, w.assignThread, w.count, w.assignResult, w.replies);
      log := fetched + more;
  }

  /** Where a `pull_request` delivery goes after its reads. */
  datatype PrRoute =
    | PrRejected(fetched: seq<Effect>)
    | PrUnanswered(fetched: seq<Effect>)
    | ToOpened(fetched: seq<Effect>, pr: PullRequest)
    | ToReview(fetched: seq<Effect>, pr: PullRequest, reviewer: string)
    | ToMerged(fetched: seq<Effect>, pr: PullRequest)

  /**
   * `handle_pull_request` up to the manager call. Unlike `issue_comment`, the
   * action is looked at only after the pull request was read. A
   * `review_requested` delivery without a reviewer login leaves the `if`
   * chain without a `return`: `PrUnanswered`, Python's implicit None. A
   * `requested_reviewer` that is JSON null makes `.get` raise, which the
   * handler turns into False.
   */
  function RoutePullRequest(p: Payload, w: World): (r: PrRoute)
    ensures !Truthy(p.repoFullName) ==> r == PrRejected([])
    ensures |r.fetched| > 0 ==> r.fetched[0] == FetchRepository(p.repoFullName.value)
    ensures !r.PrRejected? ==>
      RepoFound(p, w) && TruthyNumber(p.prNumber) && w.pr.Returned? && w.pr.value.Some?
      && r.fetched == [FetchRepository(p.repoFullName.value), FetchPullRequest(p.prNumber.value)]
    ensures r.ToOpened? <==> !r.PrRejected? && p.action == Some("opened")
    ensures r.ToReview? <==>
      !r.PrRejected? && p.action == Some("review_requested") && p.reviewer.ReviewerObject? && Truthy(p.reviewer.login)
    ensures r.PrUnanswered? <==>
      RepoFound(p, w) && TruthyNumber(p.prNumber) && w.pr.Returned? && w.pr.value.Some?
      && p.action == Some("review_requested")
      && (p.reviewer.NoReviewer? || (p.reviewer.ReviewerObject? && !Truthy(p.reviewer.login)))
    ensures r.ToMerged? <==> !r.PrRejected? && p.action == Some("closed") && w.pr.value.value.merged
    ensures r.ToReview? ==> r.reviewer == p.reviewer.login.value
    ensures r.ToOpened? || r.ToReview? || r.ToMerged? ==> r.pr == w.pr.value.value
  {
    if !Truthy(p.repoFullName) then PrRejected([])
    else
      var repo := [FetchRepository(p.repoFullName.value)];
      if w.repo != Found || !TruthyNumber(p.prNumber) then PrRejected(repo)
      else
        var fetched := repo + [FetchPullRequest(p.prNumber.value)];
        if !(w.pr.Returned? && w.pr.value.Some?) then PrRejected(fetched)
        else
          var pr := w.pr.value.value;
          if p.action == Some("opened") then ToOpened(fetched, pr)
          else if p.action == Some("review_requested") then
            match p.reviewer
            case NoReviewer => PrUnanswered(fetched)
            case NullReviewer => PrRejected(fetched)
            case ReviewerObject(login) => if Truthy(login) then ToReview(fetched, pr, login.value) else PrUnanswered(fetched)
          else if p.action == Some("closed") && pr.merged then ToMerged(fetched, pr)
          else PrRejected(fetched)
  }

  /** Pull-request routing only reads, and the actions are mutually exclusive. */
  lemma PrRoutingReadsOnly(p: Payload, w: World)
    ensures forall k :: 0 <= k < |RoutePullRequest(p, w).fetched| ==> IsRead(RoutePullRequest(p, w).fetched[k])
    ensures RoutePullRequest(p, w).ToOpened? ==> p.action != Some("closed") && p.action != Some("review_requested")
  {
  }

  /**
   * `handle_pull_request`: perform the route. The result is None only for
   * a reviewer-less review request; `w.welcomed` and `w.congratulated` say whether the
   * welcome and congratulation comments were posted.
   */
  function HandlePullRequest(p: Payload, w: World): (r: (Option<bool>, seq<Effect>))
    ensures r.0.None? <==> RoutePullRequest(p, w).PrUnanswered?
    ensures RoutePullRequest(p, w).PrRejected? || RoutePullRequest(p, w).PrUnanswered? ==> r.1 == RoutePullRequest(p, w).fetched
    ensures RoutePullRequest(p, w).PrRejected? ==> r.0 == Some(false)
    ensures RoutePullRequest(p, w).ToReview? ==> r.0 == Some(true)
    ensures RoutePullRequest(p, w).ToOpened? ==> r.0 == Some(w.welcomed)
    ensures RoutePullRequest(p, w).ToMerged? ==> r.0 == Some(w.congratulated)
    ensures |RoutePullRequest(p, w).fetched| <= |r.1| && r.1[..|RoutePullRequest(p, w).fetched|] == RoutePullRequest(p, w).fetched
  {
    match RoutePullRequest(p, w)
    case PrRejected(fetched) => (Some(false), fetched)
    case PrUnanswered(fetched) => (None, fetched)
    case ToOpened(fetched, pr) =>
      var o := PRManager.Opened(pr, w.welcomed);
      (Some(o.handled), fetched + o.log)
    case ToReview(fetched, pr, reviewer) =>
      var o := PRManager.ReviewRequested(pr, reviewer);
      (Some(o.handled), fetched + o.log)
    case ToMerged(fetched, pr) =>
      var o := PRManager.Merged(pr, w.congratulated);
      (Some(o.handled), fetched + o.log)
  }

  /** `handle_issues`: True exactly when the payload names an issue; nothing is read or written. */
  function HandleIssues(p: Payload): (r: bool)
    ensures r <==> p.issueNumber.Some? && p.issueNumber.value != 0
  {
    TruthyNumber(p.issueNumber)
  }

  /** The three event types with a handler. */
  datatype EventKind = IssueCommentEvent | PullRequestEvent | IssuesEvent

  /** The dispatch table of `handle_event`. */
  function HandlerFor(eventType: string): (r: Option<EventKind>)
    ensures r == Some(IssueCommentEvent) <==> eventType == "issue_comment"
    ensures r == Some(PullRequestEvent) <==> eventType == "pull_request"
    ensures r == Some(IssuesEvent) <==> eventType == "issues"
  {
    if eventType == "issue_comment" then Some(IssueCommentEvent)
    else if eventType == "pull_request" then Some(PullRequestEvent)
    else if eventType == "issues" then Some(IssuesEvent)
    else None
  }

  /**
   * `handle_event`: route to the handler for the event type; any other type
   * is False without calling a handler. None is the pull-request handler's
   * implicit None.
   */
  method HandleEvent(eventType: string, p: Payload, w: World) returns (r: Option<bool>, log: seq<Effect>)
    ensures HandlerFor(eventType).None? ==> r == Some(false) && log == []
    ensures eventType == "issues" ==> r == Some(HandleIssues(p)) && log == []
    ensures eventType == "pull_request" ==> (r, log) == HandlePullRequest(p, w)
    ensures eventType == "issue_comment" ==>
      r == Some(IssueCommentResult(p, w)) && |RouteIssueComment(p, w).fetched| <= |log|
      && log[..|RouteIssueComment(p, w).fetched|] == RouteIssueComment(p, w).fetched
    ensures r.None? ==> eventType == "pull_request" && RoutePullRequest(p, w).PrUnanswered?
  {
    match HandlerFor(eventType)
    case None =>
      r, log := Some(false), [];
    case Some(IssuesEvent) =>
      r, log := Some(HandleIssues(p)), [];
    case Some(PullRequestEvent) =>
      r, log := HandlePullRequest(p, w).0, HandlePullRequest(p, w).1;
    case Some(IssueCommentEvent) =>
      var handled;
      handled, log := HandleIssueComment(p, w);
      r := Some(handled);
  }

  /**
   * The client as written has no `get_repository` (nor a `get_issue` or
   * `get_pull_request` taking a repository): the lookup raises
   * AttributeError, which both handlers catch.
   */
  const ShippedLookup: RepoLookup := LookupRaised

  /** With the lookup as written, no `issue_comment` or `pull_request` delivery reaches a manager. */
  lemma ShippedLookupRejectsAll(p: Payload, w: World)
    requires w.repo == ShippedLookup
    ensures RouteIssueComment(p, w).CommentRejected?
    ensures RoutePullRequest(p, w).PrRejected?
    ensures HandlePullRequest(p, w) == (Some(false), RoutePullRequest(p, w).fetched)
    ensures |RouteIssueComment(p, w).fetched| <= 1 && |RoutePullRequest(p, w).fetched| <= 1
  {
  }

  const SamplePr: PullRequest :=
    PullRequest(1, "Fix", "open", "alice", "main", "fix", "", [], 1, 1, 0, "", false, None, "https://example.org/pull/1")

  const SampleOpened: Payload :=
    Payload(Some("opened"), Some("octo/repo"), None, false, "", "", Some(1), NoReviewer)

  const SampleWorld: World :=
    World(Found, GitHubClient.Returned(None), GitHubClient.Returned(Some(SamplePr)),
          GitHubClient.Returned([]), GitHubClient.Returned([]), _ => 0, GitHubClient.Returned(true),
          _ => None, true, true, true)

  /**
   * A newly opened pull request whose welcome comment is posted: with the
   * repository found it is processed, with the lookup as written it is not.
   */
  lemma ShippedLookupCounterexample()
    ensures HandlePullRequest(SampleOpened, SampleWorld).0 == Some(true)
    ensures HandlePullRequest(SampleOpened, SampleWorld.(repo := ShippedLookup)).0 == Some(false)
  {
    assert RoutePullRequest(SampleOpened, SampleWorld).ToOpened?;
  }
}
