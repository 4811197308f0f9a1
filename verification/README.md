# GitHub webhook helper — a Dafny model of its decision logic

The system is a small Flask service. It receives GitHub webhook deliveries, checks their
HMAC signature and routes each event to one of two managers.

- The **issue manager** spots "assign me"-style comments. It ranks the requesting users by
  how many comments they made and by when they asked. It assigns the winner, confirms,
  declines the others and notifies the owner. Every other comment is answered by an AI
  assistant.
- The **pull-request manager** answers comments with the assistant and notifies the owner
  about questions. It welcomes new pull requests, reports review requests and congratulates
  on merges.

A repository client wraps the GitHub API. It waits when the rate limit is nearly used up and
turns API errors into `None`, `[]` or `False`. An AI service builds prompts and retries the
provider with exponential backoff. A configuration class and a separate check script
validate the environment.

This project models that decision logic as pure functions over immutable datatypes, plus a
few methods with loops. Each module follows one source file:

| module | file | models |
|---|---|---|
| `Text` | text.dfy | the string operations the source uses (`lower`, `upper`, `strip`, `split`, `join`, `int()`, slicing) over ASCII |
| `Phrases` | phrases.dfy | the eight assignment-request patterns and `re.search` for their `\b w1 \s+ … wn \b` shape |
| `Ranking` | ranking.dfy | `analyze_assignment_candidates`: the score dictionary, the stable sort and its head |
| `Records` | records.dfy | issues, pull requests, comments and the effect log |
| `GitHubClient` | github_client.dfy | the rate-limit guard, the error-normalising wrappers and comment counting |
| `AIService` | ai_service.dfy | provider selection, prompt and message assembly, the retry loop |
| `IssueManager` | issue_manager.dfy | messages, the assignment flow, issue context, `handle_comment` |
| `PRManager` | pr_manager.dfy | `is_question`, pull-request context, the four pull-request handlers |
| `WebhookHandler` | webhook_handler.dfy | signature check, dispatch table and per-event routing |
| `App` | app.dfy | the `/webhook` endpoint as a response-code decision |
| `Config` | config.dfy | reading settings from the environment, `validate`, email and model-list helpers |
| `ValidateConfig` | validate_config.dfy | the four sections of the deployment check script and its exit code |

The collaborators are parameters:

- Every GitHub call's outcome (`GitHubClient.ApiOutcome` / `Reply`) is a parameter.
- The assistant's reply on each attempt is a function `nat -> Option<string>`.
- The per-user comment count is a function `string -> int`.
- HMAC-SHA256 with hex encoding is a function `(secret, body) -> string`.
- The environment is a `map<string, string>`.

Writes, reads and notifications are appended to a `seq<Effect>` log. This makes "nothing is
posted" and "the lookup comes first" statable. Python truthiness is written out
(`Text.Truthy`, `WebhookHandler.TruthyNumber`).

## Model

| member | source | states |
|---|---|---|
| Phrases.SearchFrom | src/issue_manager.py:63 | the executable search finds a hit at some position from `i` on exactly when one exists |
| Phrases.MatchFromSound | src/issue_manager.py:23-32 | where the matcher stops, the text between is the pattern's words separated by runs of whitespace |
| Phrases.MatchFromComplete | src/issue_manager.py:23-32 | every such span of a well-formed pattern is found by the matcher, with the same end |
| Phrases.SearchIsOccurs | src/issue_manager.py:63 | for a well-formed pattern, the search succeeds iff the pattern occurs with word boundaries on both sides |
| Phrases.KeywordsWellFormed | src/issue_manager.py:23-32 | all eight patterns have at least one word and no empty or whitespace-holding word |
| Phrases.AnyKeywordFrom | src/issue_manager.py:63 | true iff one of the patterns from index `k` on occurs in the text (`any` over the list) |
| Phrases.IsAssignmentRequest | src/issue_manager.py:52-63 | a comment is a request iff some pattern occurs in its lowercased text |
| Phrases.SpansContainTokens | src/issue_manager.py:23-32 | a matched span contains every word of the pattern |
| Phrases.AbsentLetter | src/issue_manager.py:23-32 | a pattern whose word holds a letter the text lacks cannot occur |
| Phrases.NoKeywordWithoutMWK | src/issue_manager.py:23-32 | a text with none of 'm', 'w', 'k' matches no request pattern |
| Phrases.NoKeywordWithoutI | src/issue_manager.py:23-32 | a text without 'i' matches no request pattern |
| Phrases.HitIsRequest | src/issue_manager.py:62-63 | a hit of any pattern in the lowercased text makes the comment a request |
| Phrases.DetectionExamples | test_local.py:143-150 | the six detection cases: four requests ("Please assign me", "Can I work on this?" among them) and two non-requests |
| Phrases.SpacedPhraseMatches | src/issue_manager.py:23-32 | a pattern's words joined by single spaces are matched to their end |
| Ranking.FirstRequestIsFirst | src/issue_manager.py:94-98 | the first request of a user has no earlier request by that user (fixes the dictionary order) |
| Ranking.LastRequestTimeIsLast | src/issue_manager.py:94-98 | a user's stored time is that of a request by them with no later request by them (the dictionary overwrite) |
| Ranking.FindUser | src/issue_manager.py:94-98 | the dictionary lookup finds an entry with that user, or none exists |
| Ranking.TallyIsDictionary | src/issue_manager.py:88-98 | the tally has one entry per requesting user, in first-request order, each holding that user's last request time |
| Ranking.StoreExisting | src/issue_manager.py:94-98 | overwriting an existing key keeps the dictionary invariant after one more request |
| Ranking.StoreNew | src/issue_manager.py:94-98 | inserting a new key at the end keeps the dictionary invariant after one more request |
| Ranking.InsertPermutation | src/issue_manager.py:100-104 | one insertion step adds exactly the new candidate to the multiset |
| Ranking.InsertSorted | src/issue_manager.py:100-104 | insertion into a list sorted by (−count, time) keeps it sorted |
| Ranking.SortByKeyPermutation | src/issue_manager.py:100-104 | the sort is a permutation of the candidates |
| Ranking.SortByKeySorted | src/issue_manager.py:100-104 | the sort orders candidates by descending count, then ascending time |
| Ranking.HeadOfSort | src/issue_manager.py:100-106 | the head of the sorted list is the first candidate with a minimal key (the sort is stable) |
| Ranking.SelectCandidate | src/issue_manager.py:84-85 | no winner iff there are no requests |
| Ranking.SelectCandidateWins | src/issue_manager.py:84-106 | with requests, the winner requested, has the most comments and, among those, the earliest last request; full ties go to the first asker |
| Ranking.WinsUnique | src/issue_manager.py:100-106 | at most one user meets the winning condition |
| Ranking.SelectCandidateIsWinner | src/issue_manager.py:84-106 | whoever meets the winning condition is the user returned |
| Ranking.MostCommentsThenEarliest | src/issue_manager.py:100-104 | worked case: of A (2 comments, asked at 10), B (5, at 20) and C (5, at 15), C wins: most comments, then earliest |
| Ranking.LastRequestCounts | src/issue_manager.py:94-98 | worked case: a user's second request replaces their first time, so an equal-count rival who asked in between wins |
| Ranking.FullTieFirstAsker | src/issue_manager.py:100-106 | worked case: equal counts and times go to the user who asked first |
| GitHubClient.ThrottleSleep | src/github_client.py:39-60 | a sleep happens iff the rate limit was read, fewer than 10 requests remain and the reset is in the future; it lasts until one second after the reset |
| GitHubClient.ThrottleWakesAfterReset | src/github_client.py:45-55 | when throttling, the client wakes strictly after the reset time |
| GitHubClient.Guarded | src/github_client.py:72-79 | each wrapper checks the rate limit, then calls; a GitHub error gives the fallback, other errors propagate |
| GitHubClient.FetchIssue | src/github_client.py:62-79 | rate check then `get_issue`; None exactly on a GitHub error |
| GitHubClient.FetchPull | src/github_client.py:81-98 | rate check then `get_pull`; None exactly on a GitHub error |
| GitHubClient.FetchComments | src/github_client.py:100-117 | rate check then list the comments; [] on a GitHub error |
| GitHubClient.AddComment | src/github_client.py:119-137 | rate check then create the comment; True on success, False exactly on a GitHub error |
| GitHubClient.AssignIssue | src/github_client.py:139-157 | rate check then add the assignee; True on success, False exactly on a GitHub error |
| GitHubClient.WrapperTracesChecked | src/github_client.py:73-152 | in any run of wrapper calls, every API call is immediately preceded by a rate check |
| GitHubClient.CountByAppend | src/github_client.py:172 | the count of a concatenation is the sum of the counts |
| GitHubClient.CountByPositive | src/github_client.py:172 | the count is positive iff the user wrote some comment |
| GitHubClient.CountByIsCardinality | src/github_client.py:172 | the count is the number of positions whose author login equals the user exactly |
| GitHubClient.UserCommentCount | src/github_client.py:159-177 | the count of the fetched comments; 0 when the fetch raised |
| AIService.SelectProvider | src/ai_service.py:150-164 | "gemini" selects Gemini, "openai" selects OpenAI, anything else is the "Unsupported AI provider" error |
| AIService.BuildPrompt | src/ai_service.py:64-76 | the prompt starts with the fixed instruction and ends with the user message and "Response:" |
| AIService.BuildPromptContext | src/ai_service.py:73-76 | the prompt has a "Context:" section right after the instruction iff the context is non-empty |
| AIService.BuildPromptLength | src/ai_service.py:75-76 | without context the prompt is exactly instruction, user message and the fixed framing |
| AIService.PromptWith | src/ai_service.py:64-76 | the same facts for any instruction text |
| AIService.BuildMessages | src/ai_service.py:116-139 | exactly [system, user]; the user content is the raw prompt without context, and is framed by it otherwise |
| AIService.PromptAgreesWithMessages | src/ai_service.py:64-139 | both providers send the same text: Gemini's prompt is the OpenAI system message, a blank line, the OpenAI user content (labelled "User message:" when there is no context) and "Response:" |
| AIService.PromptWithMessages | src/ai_service.py:64-139 | the same decomposition of the prompt for any instruction text |
| AIService.ProviderReply | src/ai_service.py:53-58 | a provider's reply is None iff the raw text is missing or empty; otherwise it is the raw text with its leading and trailing whitespace removed: no whitespace at either end, only whitespace cut away |
| AIService.FirstReply | src/ai_service.py:183-187 | the first usable reply among the attempts, or None iff none is usable |
| AIService.GenerateResponse | src/ai_service.py:166-200 | returns the first non-empty reply unchanged, after at most `max_retries` calls; waits 2^k after attempt k, never after the last |
| AIService.TotalBackoff | src/ai_service.py:194-197 | `n` waits total 2^n − 1 seconds |
| AIService.BackoffDoubles | src/ai_service.py:194-197 | the waits strictly increase, each double the one before |
| AIService.GenerateWithContext | src/ai_service.py:202-226 | the issue and pull-request helpers make 1 to 3 attempts and wait at most 3 seconds in total |
| IssueManager.Confirmation | src/issue_manager.py:116-136 | the confirmation is addressed to the winner |
| IssueManager.Decline | src/issue_manager.py:138-161 | the decline is addressed to the requester and ends naming the assigned user |
| IssueManager.AddresseeOfMention | src/issue_manager.py:116-161 | a message opening with "@login " is addressed to exactly that login |
| IssueManager.MessagesAddressed | src/issue_manager.py:116-161 | confirmation and decline are addressed to their intended users |
| IssueManager.DeclineIsNotConfirmation | src/issue_manager.py:116-161 | no decline to another user equals the winner's confirmation |
| IssueManager.RequestsAreRequestComments | src/issue_manager.py:188-194 | the requests are exactly the thread's comments that are assignment requests, with author and time |
| IssueManager.RequestsByMembers | src/issue_manager.py:188-194 | the same for any request test |
| IssueManager.Losers | src/issue_manager.py:214-217 | the winner never gets a decline |
| IssueManager.LosersCount | src/issue_manager.py:214-217 | every other user gets one decline per request comment they wrote |
| IssueManager.Winner | src/issue_manager.py:197-200 | no winner iff the thread holds no request |
| IssueManager.AssignmentFlow | src/issue_manager.py:163-232 | an issue with assignees gives False and no effects; True iff comments were listed, a non-empty winner exists and the assignment succeeded |
| IssueManager.FailureWritesNothing | src/issue_manager.py:180-207 | without success no comment is posted and nobody is notified; at most the failed assignment is logged |
| IssueManager.AssignmentSuccess | src/issue_manager.py:203-225 | on success: assignment, one confirmation to the winner, then exactly one decline post per request by each other user (none a confirmation), then the notification |
| IssueManager.HandleAssignmentRequests | src/issue_manager.py:163-232 | the method performs the assignment flow, effect for effect |
| IssueManager.PostDeclines | src/issue_manager.py:214-217 | the decline loop posts exactly the declines the flow prescribes |
| IssueManager.ContextLines | src/issue_manager.py:244-254 | title and state lines, a description of at most the first 500 characters when there is a body, a Labels line when there are labels |
| IssueManager.LabelsLineIffLabels | src/issue_manager.py:252-254 | a Labels line is present iff the issue has labels |
| IssueManager.IssueContext | src/issue_manager.py:244-256 | the context opens with "Issue #n: title" |
| IssueManager.IssueContextLines | src/issue_manager.py:256 | splitting the context at newlines gives back its lines when none holds a newline |
| IssueManager.HandleComment | src/issue_manager.py:258-293 | bot authors are skipped; requests go to the assignment flow; other comments get the AI reply, and True iff there was one |
| PRManager.FirstWordLower | src/pr_manager.py:87 | the lowercased first word is empty iff the stripped text is, and holds no space |
| PRManager.IsQuestion | src/pr_manager.py:71-88 | true whenever '?' occurs; false for blank text; otherwise true iff the first word, lowercased, is one of the 11 question words |
| PRManager.QuestionWordFirst | src/pr_manager.py:82-88 | a text whose first word is a question word, in any case, is a question |
| PRManager.OtherWordFirst | src/pr_manager.py:82-88 | without '?', a text whose first word is not a question word is not a question |
| PRManager.ShoutedQuestionExample | src/pr_manager.py:87-88 | " HOW now" is a question |
| PRManager.MarkAndBlankExamples | src/pr_manager.py:84-88 | "ok?" is a question and a blank text is not |
| PRManager.LateQuestionWordExample | src/pr_manager.py:87-88 | "ok why" is not: only the first word counts |
| PRManager.ContextLines | src/pr_manager.py:47-67 | the four header lines, a description of at most 500 characters, Labels only with labels, the two stats lines always, Mergeable only when known |
| PRManager.MergeableLineIffKnown | src/pr_manager.py:66-67 | a Mergeable line is present iff the mergeable state is known |
| PRManager.PrContextLines | src/pr_manager.py:69 | splitting the context at newlines gives back its lines when none holds a newline |
| PRManager.HandleComment | src/pr_manager.py:90-140 | bots skipped; True iff a reply was generated and posted; the question notice only after a successful post of a reply to a question |
| PRManager.MessagesMention | src/pr_manager.py:126-235 | welcome, congratulations, question and review notices each mention the user they concern |
| PRManager.Opened | src/pr_manager.py:142-175 | notify, then post the welcome; the result is whether the welcome was posted |
| PRManager.ReviewRequested | src/pr_manager.py:177-204 | notifies with the reviewer, posts no comment and returns True |
| PRManager.Merged | src/pr_manager.py:206-239 | notify naming the merger, then post the congratulations; the result is whether it was posted |
| WebhookHandler.VerifySignature | src/webhook_handler.py:39-70 | false without a header; true iff the header equals "sha256=" + hex HMAC; raises on a non-ASCII string |
| WebhookHandler.SignatureAcceptsOnlyExpected | src/webhook_handler.py:56-65 | between ASCII strings the check is equality with the expected signature |
| WebhookHandler.RouteIssueComment | src/webhook_handler.py:72-143 | non-"created" actions and missing names are refused before any lookup; a PR issue goes to the PR manager, any other to the issue manager with the thread's last comment |
| WebhookHandler.CommentRoutingReadsOnly | src/webhook_handler.py:83-135 | routing only reads, and a non-"created" action decides the route whatever the repository holds |
| WebhookHandler.HandleIssueComment | src/webhook_handler.py:72-143 | the effects start with the routing reads; refused routes give False; a PR comment is True iff a non-bot's reply was generated and posted; an issue comment is False from a bot, the assignment flow's result for a request, and otherwise True iff the assistant replied |
| WebhookHandler.RoutePullRequest | src/webhook_handler.py:145-203 | opened, review_requested with a reviewer, and closed-and-merged each reach their handler; review_requested without a reviewer answers nothing; other actions are refused |
| WebhookHandler.PrRoutingReadsOnly | src/webhook_handler.py:159-199 | routing only reads, and "opened" routing excludes the other two actions |
| WebhookHandler.HandlePullRequest | src/webhook_handler.py:145-203 | no answer exactly for a review request without a reviewer; otherwise the handler's result, or False when refused |
| WebhookHandler.HandlerFor | src/webhook_handler.py:247-253 | only issue_comment, pull_request and issues have handlers |
| WebhookHandler.IssueCommentResult | src/webhook_handler.py:72-143 | an issue_comment delivery is False whenever the action is not "created", the repository name is missing or the lookup does not find the repository; True only for a routed comment |
| WebhookHandler.HandleEvent | src/webhook_handler.py:205-259 | unknown types give False and no effects; issues give True iff the issue number is present and non-zero, with no effects; pull_request gives the handler's result and effects; issue_comment gives the comment's outcome after the routing reads |
| WebhookHandler.ShippedLookupRejectsAll | src/webhook_handler.py:99-102 | with the lookup as written, every issue_comment and pull_request delivery is refused |
| WebhookHandler.ShippedLookupCounterexample | src/webhook_handler.py:167-170 | an opened pull request processed with a working lookup is refused with the lookup as written |
| App.Admit | app.py:140-161 | 401 iff the signature is rejected; 400 for a missing event type or empty payload; 500 with an error notice when verification or JSON parsing raises; 200 "ignored" without effects for a truthy body that is not an object; dispatch iff the body is an object |
| App.SignatureFirst | app.py:142-144 | a rejected signature decides the response before the event type or payload is read |
| App.UnsignedIsRefused | app.py:142-144 | a delivery without a signature header gets 401 |
| App.Webhook | app.py:137-178 | the admitted response, or 200 "processed"/"ignored" by the handler's truthiness; a 401 causes no effects; an unknown event type is ignored; issues, pull_request and issue_comment deliveries are "processed" iff their handler's result is True |
| Config.UnsetIsFalsy | src/config.py:68-72 | an optional setting is truthy iff it reads non-empty with default "" |
| Config.LoadPortRoundTrip | src/config.py:45 | a PORT holding an integer's decimal text always loads, on exactly that port |
| Config.DefaultPortLoads | src/config.py:45 | with PORT unset the settings always load, on port 5000 |
| Config.DefaultProviderIsGemini | src/config.py:21 | an unset provider selects Gemini |
| Config.ProviderCaseInsensitive | src/config.py:21 | environments that differ only in the case of AI_PROVIDER load the same settings |
| Config.ShoutedProviderIsOpenAI | src/config.py:21 | "OpenAI" selects the OpenAI provider |
| Config.AIErrors | src/config.py:64-82 | an unknown provider gives only its own error; the selected provider's missing key and unlisted model are each reported |
| Config.Validate | src/config.py:48-84 | valid iff no errors; each of the seven errors is present iff its condition holds |
| Config.UnknownProviderErrors | src/config.py:65-82 | with an unknown provider, the errors are the missing credentials then the provider error |
| Config.MissingCredentialsComeFirst | src/config.py:58-62 | missing token and secret are the first two errors and are not repeated |
| Config.AtMostFourErrors | src/config.py:58-82 | validation reports at most four errors |
| Config.ValidSelectsProvider | src/config.py:48-84 | valid settings select a provider whose key is set |
| Config.HasEmailConfigured | src/config.py:86-89 | true iff both RESEND_API_KEY and OWNER_EMAIL are non-empty |
| Config.GetValidOpenAIModels | src/config.py:91-94 | the list holds the default OpenAI model |
| Config.GetValidGeminiModels | src/config.py:96-99 | the list holds the default Gemini model |
| Config.ModelListsAgree | src/config.py:75-99 | the public lists are the ones validation uses |
| Config.DefaultModelsValid | src/config.py:26-27 | unset model settings never raise a model error |
| ValidateConfig.ValidateGitHub | validate_config.py:32-72 | passes iff token, repository and secret are all non-empty |
| ValidateConfig.GitHubAdvisoryOnly | validate_config.py:41-72 | changing a set variable to any other non-empty value keeps the verdict, so the format and length checks only advise |
| ValidateConfig.BadTokenFormatStillPasses | validate_config.py:41-72 | a token without "ghp_" fails its format check and the section still passes |
| ValidateConfig.ValidateAI | validate_config.py:75-107 | passes iff the lowercased provider is gemini with a Gemini key, or openai with an OpenAI key |
| ValidateConfig.OpenAIKeyFormatAdvisory | validate_config.py:100-105 | the "sk-" prefix never changes the verdict |
| ValidateConfig.AIAgreesWithConfig | validate_config.py:75-107 | with AI_PROVIDER set, the verdict is the absence of provider and key errors from the application's validation |
| ValidateConfig.UnsetProviderDisagrees | validate_config.py:79 | with AI_PROVIDER unset, the script fails while the application selects Gemini |
| ValidateConfig.ValidateEmail | validate_config.py:110-145 | the email section always passes |
| ValidateConfig.ValidateApp | validate_config.py:148-172 | passes iff the upper-cased level is one of five and PORT parses to an integer in 1..65535 |
| ValidateConfig.LogLevelCaseInsensitive | validate_config.py:157 | the log level is compared without regard to case |
| ValidateConfig.DefaultPortParses | validate_config.py:154 | the default port "5000" parses to 5000 |
| ValidateConfig.DefaultAppPasses | validate_config.py:152-172 | with LOG_LEVEL and PORT unset the section passes |
| ValidateConfig.PortBounds | validate_config.py:163-170 | an out-of-range port fails the section; an in-range one leaves it to the log level |
| ValidateConfig.Main | validate_config.py:175-208 | exit code 0 iff the GitHub, AI and app sections pass, else 1 |
| ValidateConfig.EmailNeverDecides | validate_config.py:175-208 | the email variables never change the exit code |
| Text.Lower | src/issue_manager.py:62 | same length, each ASCII capital lowered by 32, other characters kept |
| Text.LowerIdempotent | src/issue_manager.py:62 | lowering twice is lowering once |
| Text.Upper | validate_config.py:156 | same length, each ASCII small letter raised by 32, other characters kept |
| Text.Take | src/issue_manager.py:250 | `s[:n]`: a prefix of length n, or all of s when shorter |
| Text.Strip | src/ai_service.py:55 | empty iff all whitespace; otherwise neither end is whitespace; it lies inside the input |
| Text.StripPadded | src/ai_service.py:55 | only whitespace is cut away: the input is its strip with whitespace before and after |
| Text.StripIsUnique | src/ai_service.py:55 | any whitespace-padded part of the input with no whitespace at either end is the stripped input |
| Text.StripIdempotent | src/ai_service.py:55 | stripping twice is stripping once |
| Text.Words | src/pr_manager.py:87 | `split()` gives non-empty words without whitespace |
| Text.WordsEmptyIffBlank | src/pr_manager.py:87 | no words iff the stripped text is empty |
| Text.FirstWord | src/pr_manager.py:87 | the first word runs from the first non-space to the next space |
| Text.SplitJoin | src/issue_manager.py:256 | splitting a newline-join at newlines recovers the parts when none holds a newline |
| Text.ParseIntOfIntToString | src/config.py:45 | `int(str(n)) == n` for every integer |

## Left out

- Email delivery is out of scope (src/email_service.py). Notifications are effects in the log; their templates and the Resend API are not modelled.
- Logging is out of scope (src/logger.py, every `logger` call). It has no effect on results.
- The interactive webhook set-up script is out of scope (scripts/setup_webhooks.py). It consists of `input()` and bulk network calls.
- `app.py`'s `initialize_services`, `index`, `health` and error pages are out of scope. They start the service or report status and decide nothing about deliveries.
- HMAC-SHA256 and hex encoding are a function parameter, not defined here. The constant-time behaviour of `hmac.compare_digest` is not expressible.
- `App.Admit` logs the error notice whenever it answers 500. The source sends it only `if email_service` (app.py:172); whether the service exists is left to the notification sink.
- `GitHubClient.__init__` and `_initialize_repository` are not modelled. They call `Config.get_repo_owner_and_name` and read `Config.GITHUB_REPO`, neither of which src/config.py defines (src/github_client.py:29-37). `get_repository_info` only copies repository fields. As shipped, the AttributeError from `__init__` is not caught there, so `initialize_services` exits (app.py:60,84-85); served under WSGI instead, `webhook_handler` stays None and every delivery gets 500 (app.py:142,168-178,194-196). The model assumes a constructed client.
- The repository accessor is abstracted. The handlers call `get_repository`, and `get_issue`/`get_pull_request` with a repository argument, none of which the client defines. The model takes the lookup's outcome and the reads' outcomes as `World` fields; see Findings.
- `get_user_comment_count` refetches the thread for each user. The model takes the counts as an arbitrary function `string -> int`, and the ranking results hold for every such function. The source supplies `get_user_comment_count`, modelled separately by `GitHubClient.UserCommentCount` and `GitHubClient.CountByIsCardinality`.
- An exception escaping `add_comment` (anything but a GitHub error) is not modelled in the managers. Only its boolean result is.
- Rate-limit times are whole seconds, not the float `total_seconds()`. `time.sleep` is recorded as the requested duration.
- `Config.SYSTEM_PROMPT` and the `*_MODEL` settings are read and validated but never used by the providers (src/ai_service.py:40,66-71,87). The model validates them and builds prompts with the hard-coded instruction.
- Text handling is ASCII only. `lower`, `upper`, `strip`, `split`, `\s`, `\w` and `\b` are modelled for ASCII letters and whitespace, not full Unicode. Regular expressions are modelled only for the eight fixed phrase patterns.
- `Config.Load`: PORT is parsed with `int()` when the class loads. A failure, which raises in Python, is `None`.
- `Config.Read` computes the settings from an environment and carries no contract of its own. Its properties are stated by `Config.Load`, `Config.DefaultProviderIsGemini`, `Config.ProviderCaseInsensitive` and `Config.DefaultModelsValid`.
- `WebhookHandler.RouteIssueComment`: the mock comment built for a pull-request thread gets creation time 0. The source passes the payload's `created_at`, which the pull-request manager never reads.
- Concurrency between deliveries is not modelled. Each delivery is handled alone.

Three behaviours of the code a reader might not expect:

- The ranking uses each user's last request time, not their first. The docstring promises the "user who requested assignment first" (src/issue_manager.py:75), but `candidate_scores[username]` is overwritten for every request (src/issue_manager.py:94-98). `Ranking.LastRequestCounts` shows a case where this matters.
- A signature header that is not ASCII makes `hmac.compare_digest` raise `TypeError`. This gives a 500, not a 401 (`WebhookHandler.VerifySignature`, `App.Admit`).
- The check script reads an unset AI_PROVIDER as "" and fails. The application defaults it to "gemini" (`ValidateConfig.UnsetProviderDisagrees`).

## Findings

| source | as written | input that shows it | evidently intended | confidence | as-written member | corrected member |
|---|---|---|---|---|---|---|
| src/webhook_handler.py:99,167 | `self.github.get_repository(repo_full_name)` is called, but the client defines no `get_repository`. The AttributeError is caught, so every issue_comment and pull_request delivery returns False and, once a client is constructed (which the shipped `__init__` prevents, see Left out), the endpoint answers 200 "ignored" | a `pull_request` "opened" delivery for a repository that exists, whose welcome comment would be posted | look the repository up and hand the pull request or issue to its manager | not executed | WebhookHandler.ShippedLookupCounterexample | WebhookHandler.HandlePullRequest |

In the model, `WebhookHandler.ShippedLookup` is the lookup as written: it always raises.

- `WebhookHandler.ShippedLookupRejectsAll` proves that with this lookup no delivery of either kind reaches a manager.
- `WebhookHandler.ShippedLookupCounterexample` exhibits one delivery that a working lookup processes and the shipped one refuses.
- The routing functions (`RouteIssueComment`, `RoutePullRequest`, `HandlePullRequest`) take the lookup's outcome as `World.repo`, so they model the intended behaviour. `WebhookHandler.RoutePullRequest` proves where each action goes when the repository is found.
