/**
 * The repository records the core reads, and the side effects it performs,
 * as immutable values.
 */
module Records {
  import opened Wrappers

  /** An issue or pull-request comment: author login, text, creation time (seconds). */
  datatype Comment = Comment(author: string, body: string, createdAt: int)

  /** An issue as the core reads it; an absent body is the empty string. */
  datatype Issue = Issue(
    number: int,
    title: string,
    state: string,
    body: string,
    labels: seq<string>,
    assignees: seq<string>,
    url: string)

  /** A pull request as the core reads it; absent body or mergeable state is the empty string. */
  datatype PullRequest = PullRequest(
    number: int,
    title: string,
    state: string,
    author: string,
    baseRef: string,
    headRef: string,
    body: string,
    labels: seq<string>,
    changedFiles: int,
    additions: int,
    deletions: int,
    mergeableState: string,
    merged: bool,
    mergedBy: Option<string>,
    url: string)

  /**
   * One call the core makes on a collaborator, in the order it is made:
   * repository reads by the router, a completion request to the assistant,
   * writes to the repository, and notifications to the (optional) email sink.
   */
  datatype Effect =
    | FetchRepository(fullName: string)
    | FetchIssue(number: int)
    | FetchPullRequest(number: int)
    | FetchComments(number: int)
    | RequestCompletion(prompt: string, context: string)
    | PostComment(target: int, text: string)
    | AssignIssue(issue: int, user: string)
    | NotifyAssignment(issue: int, title: string, user: string, url: string)
    | NotifyPrActivity(pr: int, title: string, activity: string, details: string, url: string)
    | NotifyError(kind: string, event: Option<string>)

  /** What a handler reports, and the effects it performed in order. */
  datatype Outcome = Outcome(handled: bool, log: seq<Effect>)
}
