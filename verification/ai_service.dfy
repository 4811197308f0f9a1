/**
 * The completion service: provider selection, the text sent to each
 * provider, and the retry loop with exponential backoff around a provider.
 * The provider itself is a parameter: its reply on attempt `k`.
 */
module AIService {
  import opened Wrappers
  import opened Text

  /** The fixed instruction both providers prepend. */
  const SystemInstruction: string :=
    "You are a helpful, humble, and professional GitHub bot assistant. "
    + "Your responses should be concise, respectful, and actionable. "
    + "Always maintain a friendly and supportive tone. "
    + "Keep responses brief and to the point."

  /** The retry budget `generate_issue_response` and `generate_pr_response` use. */
  const DefaultMaxRetries: int := 3

  datatype Provider = Gemini | OpenAI

  /** `_initialize_provider`: the provider named by the configuration, or the error it raises. */
  function SelectProvider(name: string): (r: Result<Provider, string>)
    ensures r == Success(Gemini) <==> name == "gemini"
    ensures r == Success(OpenAI) <==> name == "openai"
    ensures r.Failure? <==> name != "gemini" && name != "openai"
    ensures r.Failure? ==> r.error == "Unsupported AI provider: " + name
  {
    if name == "gemini" then Success(Gemini)
    else if name == "openai" then Success(OpenAI)
    else Failure("Unsupported AI provider: " + name)
  }

  /** Python truthiness of an optional context string: present and non-empty. */
  predicate HasContext(context: Option<string>) {
    context.Some? && context.value != ""
  }

  /** The prompt section: the message, and the context before it when there is one. */
  function ContextSection(context: Option<string>): (r: string)
    ensures HasContext(context) ==> r == "Context:\n" + context.value + "\n\n"
    ensures !HasContext(context) ==> r == ""
  {
    if HasContext(context) then "Context:\n" + context.value + "\n\n" else ""
  }

  /** Gemini's `_build_prompt`: one text holding instruction, optional context, message and a response cue. */
  function BuildPrompt(prompt: string, context: Option<string>): (r: string)
    ensures StartsWith(r, SystemInstruction + "\n\n")
    ensures EndsWith(r, "User message:\n" + prompt + "\n\nResponse:")
  {
    PromptWith(SystemInstruction, prompt, context)
  }

  /**
   * Right after the instruction and its blank line comes a "Context:" section
   * exactly when a non-empty context was given; without one the prompt is the
   * instruction, the labelled message and the cue, and nothing else.
   */
  lemma BuildPromptContext(prompt: string, context: Option<string>)
    ensures HasContext(context) <==> OccursAt(BuildPrompt(prompt, context), "Context:\n", |SystemInstruction| + 2)
    ensures HasContext(context) ==>
      OccursAt(BuildPrompt(prompt, context), "Context:\n" + context.value + "\n\n", |SystemInstruction| + 2)
  {
    var _ := PromptWith(SystemInstruction, prompt, context);
  }

  lemma BuildPromptLength(prompt: string, context: Option<string>)
    ensures !HasContext(context) ==> |BuildPrompt(prompt, context)| == |SystemInstruction| + |prompt| + 27
  {
    var _ := PromptWith(SystemInstruction, prompt, context);
  }

  /** `_build_prompt` for any instruction text. */
  function PromptWith(instruction: string, prompt: string, context: Option<string>): (r: string)
    ensures StartsWith(r, instruction + "\n\n")
    ensures EndsWith(r, "User message:\n" + prompt + "\n\nResponse:")
    ensures HasContext(context) <==> OccursAt(r, "Context:\n", |instruction| + 2)
    ensures HasContext(context) ==> OccursAt(r, "Context:\n" + context.value + "\n\n", |instruction| + 2)
    ensures !HasContext(context) ==> |r| == |instruction| + |prompt| + 27
  {
    var head := instruction + "\n\n";
    var sec := ContextSection(context);
    var tail := "User message:\n" + prompt + "\n\nResponse:";
    ConcatParts(head, sec, tail);
    var r := head + sec + tail;
    if HasContext(context) then
      OccursPrefix(r, sec, "Context:\n", |head|);
      r
    else
      assert sec + tail == tail;
      ConcatParts(head, tail, "");
      assert r == head + tail + "";
      OccursFirstChar(r, tail, "Context:\n", |head|);
      r
  }

  /** One chat message. */
  datatype Message = Message(role: string, content: string)

  /** OpenAI's `_build_messages`: a system message, then the user message. */
  function BuildMessages(prompt: string, context: Option<string>): (r: seq<Message>)
    ensures |r| == 2
    ensures r[0] == Message("system", SystemInstruction)
    ensures r[1].role == "user"
    ensures !HasContext(context) ==> r[1].content == prompt
    ensures HasContext(context) ==> StartsWith(r[1].content, "Context:\n" + context.value + "\n\n")
    ensures HasContext(context) ==> EndsWith(r[1].content, "User message:\n" + prompt)
  {
    var user := if HasContext(context) then ContextSection(context) + "User message:\n" + prompt else prompt;
    var sec := ContextSection(context);
    var tail := "User message:\n" + prompt;
    assert HasContext(context) ==> user[..|sec|] == sec && user[|user| - |tail|..] == tail;
    [Message("system", SystemInstruction), Message("user", user)]
  }

  /**
   * Both providers send the same text: Gemini's prompt is the system message,
   * a blank line, the user message (labelled when no context was given) and
   * the response cue.
   */
  lemma PromptAgreesWithMessages(prompt: string, context: Option<string>)
    ensures var m := BuildMessages(prompt, context);
      BuildPrompt(prompt, context)
      == m[0].content + "\n\n" + (if HasContext(context) then "" else "User message:\n") + m[1].content + "\n\nResponse:"
  {
    var m := BuildMessages(prompt, context);
    PromptWithMessages(SystemInstruction, prompt, context, m[1].content);
  }

  lemma PromptWithMessages(instruction: string, prompt: string, context: Option<string>, user: string)
    requires user == if HasContext(context) then ContextSection(context) + "User message:\n" + prompt else prompt
    ensures PromptWith(instruction, prompt, context)
      == instruction + "\n\n" + (if HasContext(context) then "" else "User message:\n") + user + "\n\nResponse:"
  {
    var head := instruction + "\n\n";
    var sec := ContextSection(context);
    var cue := "User message:\n";
    var end := "\n\nResponse:";
    assert PromptWith(instruction, prompt, context) == head + sec + (cue + prompt + end);
    if HasContext(context) {
      Regroup(head, sec, cue, prompt, end);
    } else {
      Regroup(head, "", cue, prompt, end);
    }
  }

  /** Regrouping a five-part concatenation around its middle three parts. */
  lemma Regroup(a: string, b: string, c: string, d: string, e: string)
    ensures a + b + (c + d + e) == a + (b + c + d) + e
    ensures b == "" ==> a + b + (c + d + e) == a + c + d + e
  {
  }

  /**
   * What a provider's `generate_response` returns for the raw text of its API
   * reply: None when the call raised or the text is empty, otherwise the
   * stripped text (which may itself be empty).
   */
  function ProviderReply(raw: Option<string>): (r: Option<string>)
    ensures r.None? <==> raw.None? || raw.value == ""
    ensures r.Some? ==> Trimmed(r.value) && exists i :: PaddedAt(raw.value, r.value, i)
  {
    match raw
    case None => None
    case Some(text) =>
      if text == "" then None
      else StripPadded(text); Some(Strip(text))
  }

  /** Python truthiness of a reply: present and non-empty. */
  predicate Usable(reply: Option<string>) {
    reply.Some? && reply.value != ""
  }

  /** The number of attempts `range(max_retries)` makes. */
  function Attempts(maxRetries: int): (n: nat)
    ensures n == 0 <==> maxRetries <= 0
    ensures maxRetries > 0 ==> n == maxRetries
  {
    if maxRetries <= 0 then 0 else maxRetries
  }

  function Pow2(n: nat): (r: nat)
    ensures r >= 1
  {
    if n == 0 then 1 else 2 * Pow2(n - 1)
  }

  /** Reference semantics: the first usable reply among attempts `k .. n-1`. */
  function FirstReply(replies: nat -> Option<string>, k: nat, n: nat): (r: Option<string>)
    ensures r.Some? ==> Usable(r) && exists a :: k <= a < n && r == replies(a)
    ensures r.None? <==> forall a :: k <= a < n ==> !Usable(replies(a))
    decreases n - k
  {
    if k >= n then None
    else if Usable(replies(k)) then replies(k)
    else FirstReply(replies, k + 1, n)
  }

  /**
   * `generate_response`: call the provider up to `max_retries` times, return
   * the first non-empty reply unchanged, and sleep `2^attempt` seconds after
   * every failed attempt but the last. `calls` counts provider calls and
   * `waits` lists the sleeps in order.
   */
  method GenerateResponse(replies: nat -> Option<string>, maxRetries: int)
    returns (reply: Option<string>, calls: nat, waits: seq<nat>)
    ensures reply == FirstReply(replies, 0, Attempts(maxRetries))
    ensures calls <= Attempts(maxRetries)
    ensures reply.Some? ==> 0 < calls && reply == replies(calls - 1) && reply.value != ""
    ensures reply.None? ==> calls == Attempts(maxRetries)
    ensures forall a :: 0 <= a < calls && (reply.None? || a < calls - 1) ==> !Usable(replies(a))
    ensures |waits| == if calls == 0 then 0 else calls - 1
    ensures forall i :: 0 <= i < |waits| ==> waits[i] == Pow2(i)
  {
    var attempt := 0;
    calls := 0;
    waits := [];
    while attempt < maxRetries
      invariant 0 <= attempt <= Attempts(maxRetries)
      invariant calls == attempt
      invariant forall a :: 0 <= a < attempt ==> !Usable(replies(a))
      invariant FirstReply(replies, 0, Attempts(maxRetries)) == FirstReply(replies, attempt, Attempts(maxRetries))
      invariant |waits| == if 0 < attempt && attempt == maxRetries then attempt - 1 else attempt
      invariant forall i :: 0 <= i < |waits| ==> waits[i] == Pow2(i)
      decreases maxRetries - attempt
    {
      var response := replies(attempt);
      calls := calls + 1;
      if Usable(response) {
        return response, calls, waits;
      }
      if attempt < maxRetries - 1 {
        waits := waits + [Pow2(attempt)];
      }
      attempt := attempt + 1;
    }
    reply := None;
  }

  /** The sleeps before the `n`-th call add up to `2^n - 1` seconds. */
  function Total(waits: seq<nat>): nat {
    if |waits| == 0 then 0 else Total(waits[..|waits| - 1]) + waits[|waits| - 1]
  }

  lemma {:induction false} TotalBackoff(waits: seq<nat>)
    requires forall i :: 0 <= i < |waits| ==> waits[i] == Pow2(i)
    ensures Total(waits) == Pow2(|waits|) - 1
  {
    if |waits| > 0 {
      TotalBackoff(waits[..|waits| - 1]);
    }
  }

  /** The backoff sleeps strictly grow: each is twice the one before. */
  lemma BackoffDoubles(waits: seq<nat>)
    requires forall i :: 0 <= i < |waits| ==> waits[i] == Pow2(i)
    ensures forall i, j :: 0 <= i < j < |waits| ==> waits[i] < waits[j]
    ensures forall i :: 0 < i < |waits| ==> waits[i] == 2 * waits[i - 1]
  {
    forall i, j | 0 <= i < j < |waits|
      ensures waits[i] < waits[j]
    {
      Pow2Increasing(i, j);
    }
  }

  lemma {:induction false} Pow2Increasing(i: nat, j: nat)
    requires i < j
    ensures Pow2(i) < Pow2(j)
    decreases j
  {
    if i < j - 1 {
      Pow2Increasing(i, j - 1);
    }
  }

  /** `generate_issue_response` / `generate_pr_response`: the retry loop with the default budget. */
  method GenerateWithContext(replies: nat -> Option<string>)
    returns (reply: Option<string>, calls: nat, waits: seq<nat>)
    ensures reply == FirstReply(replies, 0, 3)
    ensures 1 <= calls <= 3
    ensures Total(waits) <= 3
  {
    reply, calls, waits := GenerateResponse(replies, DefaultMaxRetries);
    TotalBackoff(waits);
  }
}
