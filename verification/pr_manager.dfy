/**
 * Pull-request handling: the question heuristic, the context given to the
 * assistant, and the handlers for a comment, an opened pull request, a review
 * request and a merge. Collaborator outcomes (assistant replies, whether a
 * comment was posted) are parameters; the handlers return their effects.
 */
module PRManager {
  import opened Wrappers
  import opened Text
  import opened Records
  import AIService

  /** The words that make a comment a question when they come first. */
  const QuestionWords: seq<string> :=
    ["what", "why", "how", "when", "where", "who", "which", "can", "could", "would", "should"]

  /** The lowercased first whitespace-separated word, or "" for blank text. */
  function FirstWordLower(text: string): (r: string)
    ensures r == "" <==> Strip(text) == ""
    ensures r != "" ==> !ContainsChar(r, ' ')
  {
    WordsEmptyIffBlank(text);
    if Strip(text) == "" then "" else Lower(Words(text)[0])
  }

  /** `is_question`: a '?' anywhere, or a question word first (in any letter case). */
  function IsQuestion(text: string): (r: bool)
    ensures ContainsChar(text, '?') ==> r
    ensures Strip(text) == "" ==> !r
    ensures !ContainsChar(text, '?') ==> (r <==> FirstWordLower(text) in QuestionWords)
  {
    ContainsChar(text, '?') || FirstWordLower(text) in QuestionWords
  }

  /**
   * A text that starts with a question word (in any letter case), possibly
   * after whitespace, and followed by the end of the text or whitespace, is a
   * question.
   */
  lemma QuestionWordFirst(lead: string, w: string, rest: string)
    requires forall k :: 0 <= k < |lead| ==> IsSpace(lead[k])
    requires forall k :: 0 <= k < |w| ==> !IsSpace(w[k])
    requires Lower(w) in QuestionWords
    requires rest == [] || IsSpace(rest[0])
    ensures IsQuestion(lead + w + rest)
  {
    assert w != [];
    FirstWordOf(lead, w, rest);
  }

  /**
   * Without a '?', a text whose first word is not a question word is not a
   * question, even when a question word comes later.
   */
  lemma OtherWordFirst(lead: string, w: string, rest: string)
    requires forall k :: 0 <= k < |lead| ==> IsSpace(lead[k])
    requires w != [] && forall k :: 0 <= k < |w| ==> !IsSpace(w[k])
    requires Lower(w) !in QuestionWords
    requires rest == [] || IsSpace(rest[0])
    requires !ContainsChar(lead + w + rest, '?')
    ensures !IsQuestion(lead + w + rest)
  {
    FirstWordOf(lead, w, rest);
  }

  /** A question word in capitals after leading whitespace makes a question. */
  lemma ShoutedQuestionExample()
    ensures IsQuestion(" HOW now")
  {
    var s := " HOW now";
    assert s == " " + "HOW" + " now" by {
      assert " " + "HOW" == " HOW";
    }
    assert Lower("HOW") in QuestionWords by {
      assert Lower("HOW") == "how" by {
        assert LowerChar('H') == 'h' && LowerChar('O') == 'o' && LowerChar('W') == 'w';
      }
    }
    QuestionWordFirst(" ", "HOW", " now");
  }

  /** A question mark alone makes a question; blank text never is one. */
  lemma MarkAndBlankExamples()
    ensures IsQuestion("ok?")
    ensures !IsQuestion("  ")
  {
    assert "ok?"[2] == '?';
    assert Strip("  ") == "";
  }

  /** A question word that does not come first does not count. */
  lemma LateQuestionWordExample()
    ensures !IsQuestion("ok why")
  {
    var word := "ok";
    assert Lower(word) == "ok";
    var s := word + " why";
    assert s == "ok why";
    assert !ContainsChar(s, '?') by {
      assert forall k :: 0 <= k < |s| ==> s[k] in "ok why";
    }
    OtherWordFirst("", word, " why");
    assert "" + word + " why" == s;
  }

  /** The lines of `generate_pr_context`. */
  function ContextLines(pr: PullRequest): (r: seq<string>)
    ensures |r| == 6 + (if pr.body != "" then 1 else 0) + (if pr.labels != [] then 1 else 0)
                    + (if pr.mergeableState != "" then 1 else 0)
    ensures r[0] == "Pull Request #" + IntToString(pr.number) + ": " + pr.title
    ensures r[1] == "State: " + pr.state
    ensures r[2] == "Base branch: " + pr.baseRef
    ensures r[3] == "Head branch: " + pr.headRef
    ensures pr.body != "" ==> r[4] == "Description: " + Take(pr.body, 500) && |r[4]| <= 513
    ensures pr.mergeableState != "" ==> r[|r| - 1] == "Mergeable state: " + pr.mergeableState
    ensures var stats := if pr.mergeableState != "" then |r| - 3 else |r| - 2;
      && r[stats] == "Files changed: " + IntToString(pr.changedFiles)
      && r[stats + 1] == "Additions: +" + IntToString(pr.additions) + ", Deletions: -" + IntToString(pr.deletions)
      && (pr.labels != [] ==> r[stats - 1] == "Labels: " + Join(pr.labels, ", "))
  {
    ["Pull Request #" + IntToString(pr.number) + ": " + pr.title,
     "State: " + pr.state,
     "Base branch: " + pr.baseRef,
     "Head branch: " + pr.headRef]
    + (if pr.body != "" then ["Description: " + Take(pr.body, 500)] else [])
    + (if pr.labels != [] then ["Labels: " + Join(pr.labels, ", ")] else [])
    + ["Files changed: " + IntToString(pr.changedFiles),
       "Additions: +" + IntToString(pr.additions) + ", Deletions: -" + IntToString(pr.deletions)]
    + (if pr.mergeableState != "" then ["Mergeable state: " + pr.mergeableState] else [])
  }

  /** A "Mergeable state" line appears exactly when the state is known, and then it is last. */
  lemma MergeableLineIffKnown(pr: PullRequest)
    ensures (exists k :: 0 <= k < |ContextLines(pr)| && StartsWith(ContextLines(pr)[k], "Mergeable state: "))
        <==> pr.mergeableState != ""
  {
    var r := ContextLines(pr);
    if pr.mergeableState != "" {
      assert StartsWith(r[|r| - 1], "Mergeable state: ");
    } else {
      var fixed := ["Pull Request #" + IntToString(pr.number) + ": " + pr.title,
                    "State: " + pr.state,
                    "Base branch: " + pr.baseRef,
                    "Head branch: " + pr.headRef];
      var desc := if pr.body != "" then ["Description: " + Take(pr.body, 500)] else [];
      var labels := if pr.labels != [] then ["Labels: " + Join(pr.labels, ", ")] else [];
      var stats := ["Files changed: " + IntToString(pr.changedFiles),
                    "Additions: +" + IntToString(pr.additions) + ", Deletions: -" + IntToString(pr.deletions)];
      assert r == fixed + desc + labels + stats;
      forall k | 0 <= k < |r|
        ensures !StartsWith(r[k], "Mergeable state: ")
      {
        var line := r[k];
        if k < 4 {
          assert line == fixed[k];
        } else if k < 4 + |desc| {
          assert line == desc[0];
        } else if k < 4 + |desc| + |labels| {
          assert line == labels[0];
        } else {
          assert line == stats[k - 4 - |desc| - |labels|];
        }
        assert line[0] != 'M';
      }
    }
  }

  /** `generate_pr_context`: the context lines joined by newlines. */
  function PrContext(pr: PullRequest): string {
    Join(ContextLines(pr), "\n")
  }

  /** A newline-free pull request gives back its context lines when the context is split on newlines. */
  lemma PrContextLines(pr: PullRequest)
    requires forall k :: 0 <= k < |ContextLines(pr)| ==> !ContainsChar(ContextLines(pr)[k], '\n')
    ensures SplitOn(PrContext(pr), '\n') == ContextLines(pr)
  {
    SplitJoin(ContextLines(pr), '\n');
  }

  /** The bot's own comments carry this suffix. */
  predicate IsBot(login: string) {
    EndsWith(login, "[bot]")
  }

  /** The details line of the "Question Asked" notification. */
  function QuestionDetails(login: string, body: string): string {
    "User " + Mention(login) + (" asked: " + Take(body, 200) + "...")
  }

  /**
   * `handle_comment` on a pull request: bot comments are ignored; otherwise
   * the comment is sent with the pull-request context to the assistant; a
   * reply is posted; and only when it was posted and the comment is a
   * question is the owner notified. `replies` gives the provider's reply on
   * each attempt and `posted` whether `add_comment` succeeded.
   */
  method HandleComment(pr: PullRequest, comment: Comment, replies: nat -> Option<string>, posted: bool)
    returns (handled: bool, log: seq<Effect>)
    ensures IsBot(comment.author) ==> !handled && log == []
    ensures !IsBot(comment.author) ==>
      var reply := AIService.FirstReply(replies, 0, AIService.DefaultMaxRetries);
      && (handled <==> reply.Some? && posted)
      && log == [RequestCompletion(comment.body, PrContext(pr))]
                + (if reply.Some? then [PostComment(pr.number, reply.value)] else [])
                + (if handled && IsQuestion(comment.body)
                   then [NotifyPrActivity(pr.number, pr.title, "Question Asked",
                                          QuestionDetails(comment.author, comment.body), pr.url)]
                   else [])
  {
    if IsBot(comment.author) {
      return false, [];
    }
    log := [RequestCompletion(comment.body, PrContext(pr))];
    var reply, _, _ := AIService.GenerateResponse(replies, AIService.DefaultMaxRetries);
    if reply.None? {
      return false, log;
    }
    log := log + [PostComment(pr.number, reply.value)];
    if !posted {
      return false, log;
    }
    if IsQuestion(comment.body) {
      log := log + [NotifyPrActivity(pr.number, pr.title, "Question Asked",
                                     QuestionDetails(comment.author, comment.body), pr.url)];
    }
    handled := true;
  }

  /** How a message addresses a user. */
  function Mention(login: string): string {
    "@" + login
  }

  function WelcomeMessage(author: string): string {
    "Thank you " + Mention(author) + WelcomeRest
  }

  const WelcomeRest: string :=
    " for your pull request! \U{1F389}\n\n"
    + "I'll help answer any questions you might have. A maintainer will review your changes soon."

  function CongratulationsMessage(author: string): string {
    "\U{1F389} Congratulations " + Mention(author) + "! Your pull request has been merged. Thank you for your contribution!"
  }

  /** Messages and notifications mention the user they are about. */
  lemma MessagesMention(author: string, reviewer: string)
    ensures Contains(WelcomeMessage(author), Mention(author))
    ensures Contains(CongratulationsMessage(author), Mention(author))
    ensures forall body :: Contains(QuestionDetails(author, body), Mention(author))
    ensures Contains(ReviewDetails(reviewer), Mention(reviewer))
  {
    OccursBetween("Thank you ", Mention(author), WelcomeRest);
    OccursBetween("\U{1F389} Congratulations ", Mention(author),
                  "! Your pull request has been merged. Thank you for your contribution!");
    forall body
      ensures Contains(QuestionDetails(author, body), Mention(author))
    {
      OccursBetween("User ", Mention(author), " asked: " + Take(body, 200) + "...");
    }
    ConcatParts("Review requested from ", Mention(reviewer), "");
    assert "Review requested from " + Mention(reviewer) + "" == ReviewDetails(reviewer);
  }

  lemma OccursBetween(a: string, b: string, c: string)
    ensures Contains(a + b + c, b)
  {
    ConcatParts(a, b, c);
  }

  /** `handle_pr_opened`: notify, then post the welcome; the result is whether the post succeeded. */
  function Opened(pr: PullRequest, posted: bool): (r: Outcome)
    ensures r.handled == posted
    ensures |r.log| == 2 && r.log[0].NotifyPrActivity? && r.log[0].activity == "New Pull Request"
    ensures r.log[1] == PostComment(pr.number, WelcomeMessage(pr.author))
  {
    Outcome(posted, [
      NotifyPrActivity(pr.number, pr.title, "New Pull Request",
                       "Opened by " + Mention(pr.author) + " from " + pr.headRef + " to " + pr.baseRef, pr.url),
      PostComment(pr.number, WelcomeMessage(pr.author))])
  }

  function ReviewDetails(reviewer: string): string {
    "Review requested from " + Mention(reviewer)
  }

  /** `handle_pr_review_requested`: notify only, post nothing, report success. */
  function ReviewRequested(pr: PullRequest, reviewer: string): (r: Outcome)
    ensures r.handled
    ensures forall k :: 0 <= k < |r.log| ==> !r.log[k].PostComment?
    ensures r.log == [NotifyPrActivity(pr.number, pr.title, "Review Requested", ReviewDetails(reviewer), pr.url)]
  {
    Outcome(true, [NotifyPrActivity(pr.number, pr.title, "Review Requested", ReviewDetails(reviewer), pr.url)])
  }

  /** Who merged, as the notification names it. */
  function MergedBy(pr: PullRequest): (r: string)
    ensures pr.mergedBy.None? ==> r == "unknown"
    ensures pr.mergedBy.Some? ==> r == pr.mergedBy.value
  {
    pr.mergedBy.GetOr("unknown")
  }

  /** `handle_pr_merged`: notify, then congratulate the author; the result is whether the post succeeded. */
  function Merged(pr: PullRequest, posted: bool): (r: Outcome)
    ensures r.handled == posted
    ensures |r.log| == 2
    ensures r.log[0] == NotifyPrActivity(pr.number, pr.title, "Pull Request Merged", "Merged by " + Mention(MergedBy(pr)), pr.url)
    ensures r.log[1] == PostComment(pr.number, CongratulationsMessage(pr.author))
  {
    Outcome(posted, [
      NotifyPrActivity(pr.number, pr.title, "Pull Request Merged", "Merged by " + Mention(MergedBy(pr)), pr.url),
      PostComment(pr.number, CongratulationsMessage(pr.author))])
  }
}
