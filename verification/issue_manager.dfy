/**
 * Issue handling: the issue context given to the assistant, the messages
 * posted around an assignment, and the two flows — resolving assignment
 * requests, and answering any other comment. Collaborator outcomes (the
 * comment listing, the assignment call, the assistant's replies) are
 * parameters, and the flows return the effects they perform in order.
 */
module IssueManager {
  import opened Wrappers
  import opened Text
  import opened Phrases
  import opened Records
  import opened Ranking
  import GitHubClient
  import AIService

  /** A GitHub login as the messages use it: non-empty, without spaces. */
  predicate IsLogin(u: string) {
    u != "" && !ContainsChar(u, ' ')
  }

  const ConfirmationWords: string :=
    "Thank you for your interest! I've assigned this issue to you. "
    + "Feel free to ask any questions if you need clarification. "
    + "Looking forward to your contribution! \U{1F680}"

  const DeclineWords: string :=
    "Thank you so much for your interest in working on this issue! "
    + "I really appreciate your willingness to contribute. "
    + "However, this issue has been assigned to "

  const DeclineClosing: string :=
    " based on their engagement. "
    + "Please feel free to check out other open issues where you can contribute. "
    + "Your participation in this project is valued! \U{1F64F}"

  /** `generate_assignment_confirmation`. */
  function Confirmation(user: string): (r: string)
    ensures StartsWith(r, "@" + user + " ")
  {
    var r := ("@" + user + " ") + ConfirmationWords;
    assert r[..|user| + 2] == "@" + user + " ";
    r
  }

  /** `generate_decline_message`: addressed to `user`, naming `assignedTo`. */
  function Decline(user: string, assignedTo: string): (r: string)
    ensures StartsWith(r, "@" + user + " ")
    ensures EndsWith(r, "@" + assignedTo + DeclineClosing)
  {
    var r := ("@" + user + " ") + DeclineWords + ("@" + assignedTo + DeclineClosing);
    ConcatParts("@" + user + " ", DeclineWords, "@" + assignedTo + DeclineClosing);
    r
  }

  /** The login a message is addressed to: the text between a leading '@' and the first space. */
  function Addressee(msg: string): (r: Option<string>)
    ensures r.Some? ==> StartsWith(msg, "@" + r.value + " ")
  {
    if |msg| > 0 && msg[0] == '@' && ContainsChar(msg[1..], ' ') then
      var k := FirstIndexOf(msg[1..], ' ');
      assert msg[..k + 2] == "@" + msg[1..][..k] + " ";
      Some(msg[1..][..k])
    else None
  }

  /** A message starting with "@user " is addressed to `user`. */
  lemma AddresseeOfMention(user: string, msg: string)
    requires IsLogin(user) && StartsWith(msg, "@" + user + " ")
    ensures Addressee(msg) == Some(user)
  {
    var rest := msg[1..];
    assert rest[|user|] == ' ';
    assert ContainsChar(rest, ' ');
    forall k | 0 <= k < |user|
      ensures rest[k] != ' '
    {
      assert rest[k] == user[k];
    }
    assert FirstIndexOf(rest, ' ') == |user|;
    assert rest[..|user|] == user;
  }

  /** The confirmation is addressed to the winner, and a decline to the declined user. */
  lemma MessagesAddressed(user: string, winner: string)
    requires IsLogin(user) && IsLogin(winner)
    ensures Addressee(Confirmation(winner)) == Some(winner)
    ensures Addressee(Decline(user, winner)) == Some(user)
  {
    AddresseeOfMention(winner, Confirmation(winner));
    AddresseeOfMention(user, Decline(user, winner));
  }

  /** The request comments of a thread, in thread order, as (author, creation time). */
  function Requests(thread: seq<Comment>): (r: seq<Request>)
    ensures |r| <= |thread|
  {
    RequestsBy(thread, IsAssignmentRequest)
  }

  /** The comments whose body `asks` accepts, in thread order, as (author, creation time). */
  function RequestsBy(thread: seq<Comment>, asks: string -> bool): (r: seq<Request>)
    ensures |r| <= |thread|
  {
    if |thread| == 0 then []
    else
      var c := thread[|thread| - 1];
      RequestsBy(thread[..|thread| - 1], asks) + (if asks(c.body) then [Request(c.author, c.createdAt)] else [])
  }

  /** A request is collected exactly when some comment of the thread asks with that author and time. */
  lemma RequestsAreRequestComments(thread: seq<Comment>, q: Request)
    ensures q in Requests(thread) <==>
      exists k :: 0 <= k < |thread| && IsAssignmentRequest(thread[k].body) && q == Request(thread[k].author, thread[k].createdAt)
  {
    RequestsByMembers(thread, IsAssignmentRequest, q);
  }

  lemma {:induction false} RequestsByMembers(thread: seq<Comment>, asks: string -> bool, q: Request)
    ensures q in RequestsBy(thread, asks) <==>
      exists k :: 0 <= k < |thread| && asks(thread[k].body) && q == Request(thread[k].author, thread[k].createdAt)
  {
    if |thread| > 0 {
      var n := |thread|;
      var pre := thread[..n - 1];
      var c := thread[n - 1];
      var tail := if asks(c.body) then [Request(c.author, c.createdAt)] else [];
      assert RequestsBy(thread, asks) == RequestsBy(pre, asks) + tail;
      RequestsByMembers(pre, asks, q);
      if q in RequestsBy(thread, asks) && q in RequestsBy(pre, asks) {
        var k :| 0 <= k < |pre| && asks(pre[k].body) && q == Request(pre[k].author, pre[k].createdAt);
        assert thread[k] == pre[k];
      }
      if exists k :: 0 <= k < n && asks(thread[k].body) && q == Request(thread[k].author, thread[k].createdAt) {
        var k :| 0 <= k < n && asks(thread[k].body) && q == Request(thread[k].author, thread[k].createdAt);
        if k < n - 1 {
          assert pre[k] == thread[k];
        }
      }
    }
  }

  /** Number of requests by `u`. */
  function RequestCount(reqs: seq<Request>, u: string): (n: nat)
    ensures n <= |reqs|
  {
    if |reqs| == 0 then 0
    else RequestCount(reqs[..|reqs| - 1], u) + (if reqs[|reqs| - 1].user == u then 1 else 0)
  }

  /** The authors of the requests not made by `winner`, one per request, in order. */
  function Losers(reqs: seq<Request>, winner: string): (r: seq<string>)
    ensures winner !in r
  {
    if |reqs| == 0 then []
    else
      var q := reqs[|reqs| - 1];
      Losers(reqs[..|reqs| - 1], winner) + (if q.user != winner then [q.user] else [])
  }

  /** Every other requester is declined once per request, and the winner never. */
  lemma {:induction false} LosersCount(reqs: seq<Request>, winner: string, u: string)
    ensures multiset(Losers(reqs, winner))[u] == if u == winner then 0 else RequestCount(reqs, u)
  {
    if |reqs| > 0 {
      LosersCount(reqs[..|reqs| - 1], winner, u);
    }
  }

  /** One decline post per losing request, in request order. */
  function DeclinePosts(issue: int, losers: seq<string>, winner: string): (r: seq<Effect>)
    ensures |r| == |losers|
    ensures forall k :: 0 <= k < |r| ==> r[k] == PostComment(issue, Decline(losers[k], winner))
  {
    seq(|losers|, k requires 0 <= k < |losers| => PostComment(issue, Decline(losers[k], winner)))
  }

  /** The selection over a thread's requests, with the issue's comment counts. */
  function Winner(count: Counts, thread: seq<Comment>): (r: Option<string>)
    ensures r.None? <==> Requests(thread) == []
  {
    SelectCandidate(count, Requests(thread))
  }

  /**
   * `handle_assignment_requests`, as a reference: skip assigned issues; list
   * the comments (an escaping exception ends the flow with False); pick the
   * winner among the request comments; try the assignment; only when it
   * succeeds, confirm, decline each losing request, and notify.
   * `count` is what `get_user_comment_count` reports for each login.
   */
  function AssignmentFlow(issue: Issue, comments: GitHubClient.Reply<seq<Comment>>, count: Counts,
                          assignResult: GitHubClient.Reply<bool>): (r: Outcome)
    ensures issue.assignees != [] ==> r == Outcome(false, [])
    ensures r.handled <==>
      (issue.assignees == [] && comments.Returned?
       && Winner(count, comments.value).Some? && Winner(count, comments.value).value != ""
       && assignResult == GitHubClient.Returned(true))
    ensures !r.handled ==> |r.log| <= 1
  {
    if issue.assignees != [] then Outcome(false, [])
    else if comments.Raised? then Outcome(false, [])
    else
      match Winner(count, comments.value)
      case None => Outcome(false, [])
      case Some(w) =>
        if w == "" then Outcome(false, [])
        else if assignResult != GitHubClient.Returned(true) then Outcome(false, [AssignIssue(issue.number, w)])
        else
          var reqs := Requests(comments.value);
          Outcome(true,
            [AssignIssue(issue.number, w), PostComment(issue.number, Confirmation(w))]
            + DeclinePosts(issue.number, Losers(reqs, w), w)
            + [NotifyAssignment(issue.number, issue.title, w, issue.url)])
  }

  /**
   * Without success nothing is posted and nobody is notified: at most the
   * failed assignment attempt is logged, and only once a winner was chosen.
   */
  lemma FailureWritesNothing(issue: Issue, comments: GitHubClient.Reply<seq<Comment>>, count: Counts,
                             assignResult: GitHubClient.Reply<bool>)
    requires !AssignmentFlow(issue, comments, count, assignResult).handled
    ensures var log := AssignmentFlow(issue, comments, count, assignResult).log;
      && (forall k :: 0 <= k < |log| ==> !log[k].PostComment? && !log[k].NotifyAssignment?)
      && (log != [] ==> comments.Returned? && log == [AssignIssue(issue.number, Winner(count, comments.value).value)])
  {
  }

  /**
   * On success the log holds one assignment to the winner, then exactly one
   * confirmation addressed to the winner, then the declines (each requester
   * other than the winner once per request), then the notification.
   */
  lemma AssignmentSuccess(issue: Issue, comments: GitHubClient.Reply<seq<Comment>>, count: Counts,
                          assignResult: GitHubClient.Reply<bool>)
    requires AssignmentFlow(issue, comments, count, assignResult).handled
    ensures var w := Winner(count, comments.value).value;
      var log := AssignmentFlow(issue, comments, count, assignResult).log;
      && |log| == 3 + |Losers(Requests(comments.value), w)|
      && log[0] == AssignIssue(issue.number, w)
      && log[1] == PostComment(issue.number, Confirmation(w))
      && log[2..|log| - 1] == DeclinePosts(issue.number, Losers(Requests(comments.value), w), w)
      && (forall k :: 2 <= k < |log| - 1 ==> log[k] != PostComment(issue.number, Confirmation(w)))
      && log[|log| - 1] == NotifyAssignment(issue.number, issue.title, w, issue.url)
      && (forall u :: multiset(Losers(Requests(comments.value), w))[u]
                        == if u == w then 0 else RequestCount(Requests(comments.value), u))
  {
    var w := Winner(count, comments.value).value;
    var reqs := Requests(comments.value);
    var log := AssignmentFlow(issue, comments, count, assignResult).log;
    var ds := DeclinePosts(issue.number, Losers(reqs, w), w);
    forall k | 2 <= k < |log| - 1
      ensures log[k] != PostComment(issue.number, Confirmation(w))
    {
      assert log[k] == ds[k - 2];
      var u := Losers(reqs, w)[k - 2];
      assert u != w;
      DeclineIsNotConfirmation(u, w);
    }
    forall u
      ensures multiset(Losers(reqs, w))[u] == if u == w then 0 else RequestCount(reqs, u)
    {
      LosersCount(reqs, w, u);
    }
  }

  /** A decline to another user never reads as the winner's confirmation. */
  lemma DeclineIsNotConfirmation(u: string, w: string)
    requires u != w
    ensures Decline(u, w) != Confirmation(w)
  {
  }

  /**
   * `handle_assignment_requests`: the flow above, with the decline messages
   * posted one per request by a loop.
   */
  method HandleAssignmentRequests(issue: Issue, comments: GitHubClient.Reply<seq<Comment>>, count: Counts,
                                  assignResult: GitHubClient.Reply<bool>)
    returns (handled: bool, log: seq<Effect>)
    ensures Outcome(handled, log) == AssignmentFlow(issue, comments, count, assignResult)
  {
    if issue.assignees != [] || comments.Raised? {
      return false, [];
    }
    var winner := Winner(count, comments.value);
    if winner.None? || winner.value == "" {
      return false, [];
    }
    var w := winner.value;
    log := [AssignIssue(issue.number, w)];
    if assignResult != GitHubClient.Returned(true) {
      return false, log;
    }
    var declines := PostDeclines(issue.number, Requests(comments.value), w);
    log := [AssignIssue(issue.number, w), PostComment(issue.number, Confirmation(w))] + declines
      + [NotifyAssignment(issue.number, issue.title, w, issue.url)];
    handled := true;
  }

  /** The decline loop: one decline per request whose user is not the winner, in request order. */
  method PostDeclines(issue: int, reqs: seq<Request>, w: string) returns (posts: seq<Effect>)
    ensures posts == DeclinePosts(issue, Losers(reqs, w), w)
  {
    posts := [];
    var i := 0;
    while i < |reqs|
      invariant 0 <= i <= |reqs|
      invariant posts == DeclinePosts(issue, Losers(reqs[..i], w), w)
    {
      DeclinePostsStep(issue, reqs, i, w);
      if reqs[i].user != w {
        posts := posts + [PostComment(issue, Decline(reqs[i].user, w))];
      }
      i := i + 1;
    }
    assert reqs[..i] == reqs;
  }

  /** One more request adds its decline, unless it is the winner's. */
  lemma DeclinePostsStep(issue: int, reqs: seq<Request>, i: nat, w: string)
    requires i < |reqs|
    ensures DeclinePosts(issue, Losers(reqs[..i + 1], w), w)
      == DeclinePosts(issue, Losers(reqs[..i], w), w)
         + (if reqs[i].user != w then [PostComment(issue, Decline(reqs[i].user, w))] else [])
  {
    assert reqs[..i + 1][..i] == reqs[..i];
    assert reqs[..i + 1][i] == reqs[i];
  }

  /** The lines of `generate_issue_context`. */
  function ContextLines(issue: Issue): (r: seq<string>)
    ensures |r| == 2 + (if issue.body != "" then 1 else 0) + (if issue.labels != [] then 1 else 0)
    ensures r[0] == "Issue #" + IntToString(issue.number) + ": " + issue.title
    ensures r[1] == "State: " + issue.state
    ensures issue.body != "" ==> r[2] == "Description: " + Take(issue.body, 500) && |r[2]| <= 513
    ensures issue.labels != [] ==> r[|r| - 1] == "Labels: " + Join(issue.labels, ", ")
  {
    ["Issue #" + IntToString(issue.number) + ": " + issue.title, "State: " + issue.state]
    + (if issue.body != "" then ["Description: " + Take(issue.body, 500)] else [])
    + (if issue.labels != [] then ["Labels: " + Join(issue.labels, ", ")] else [])
  }

  /** A Labels line appears exactly when the issue has labels. */
  lemma LabelsLineIffLabels(issue: Issue)
    ensures (exists k :: 0 <= k < |ContextLines(issue)| && StartsWith(ContextLines(issue)[k], "Labels: "))
        <==> issue.labels != []
  {
    var r := ContextLines(issue);
    if exists k :: 0 <= k < |r| && StartsWith(r[k], "Labels: ") {
      var k :| 0 <= k < |r| && StartsWith(r[k], "Labels: ");
      assert r[k][0] == 'L';
    }
    if issue.labels != [] {
      var l := r[|r| - 1];
      assert l[..8] == "Labels: ";
    }
  }

  /** `generate_issue_context`: the context lines joined by newlines. */
  function IssueContext(issue: Issue): (r: string)
    ensures StartsWith(r, "Issue #" + IntToString(issue.number) + ": " + issue.title)
  {
    var lines := ContextLines(issue);
    JoinStartsWith(lines, "\n");
    Join(lines, "\n")
  }

  /** A joined list starts with its first element. */
  lemma JoinStartsWith(parts: seq<string>, sep: string)
    requires |parts| >= 1
    ensures StartsWith(Join(parts, sep), parts[0])
  {
    if |parts| > 1 {
      var s := Join(parts, sep);
      assert s[..|parts[0]|] == parts[0];
    }
  }

  /** A newline-free issue gives back its context lines when the context is split on newlines. */
  lemma IssueContextLines(issue: Issue)
    requires forall k :: 0 <= k < |ContextLines(issue)| ==> !ContainsChar(ContextLines(issue)[k], '\n')
    ensures SplitOn(IssueContext(issue), '\n') == ContextLines(issue)
  {
    SplitJoin(ContextLines(issue), '\n');
  }

  /** The "[bot]" suffix the bot's own comments carry. */
  predicate IsBot(login: string) {
    EndsWith(login, "[bot]")
  }

  /**
   * `handle_comment` on an issue: bot comments are ignored; a request comment
   * goes to the assignment flow; any other comment is sent with the issue
   * context to the assistant, whose first non-empty reply (if any) is posted.
   * `replies` gives the provider's reply on each attempt.
   */
  method HandleComment(issue: Issue, comment: Comment,
                       comments: GitHubClient.Reply<seq<Comment>>, count: Counts, assignResult: GitHubClient.Reply<bool>,
                       replies: nat -> Option<string>)
    returns (handled: bool, log: seq<Effect>)
    ensures IsBot(comment.author) ==> !handled && log == []
    ensures !IsBot(comment.author) && IsAssignmentRequest(comment.body) ==>
      Outcome(handled, log) == AssignmentFlow(issue, comments, count, assignResult)
    ensures !IsBot(comment.author) && !IsAssignmentRequest(comment.body) ==>
      var reply := AIService.FirstReply(replies, 0, AIService.DefaultMaxRetries);
      && handled == reply.Some?
      && log == [RequestCompletion(comment.body, IssueContext(issue))]
                + (if reply.Some? then [PostComment(issue.number, reply.value)] else [])
  {
    if IsBot(comment.author) {
      return false, [];
    }
    if IsAssignmentRequest(comment.body) {
      handled, log := HandleAssignmentRequests(issue, comments, count, assignResult);
      return;
    }
    var context := IssueContext(issue);
    log := [RequestCompletion(comment.body, context)];
    var reply, _, _ := AIService.GenerateResponse(replies, AIService.DefaultMaxRetries);
    if reply.Some? {
      log := log + [PostComment(issue.number, reply.value)];
      handled := true;
    } else {
      handled := false;
    }
  }
}
