/** The paper-chan bot (paper_chan/paper_chan.py): the short-term memory of
    the last five sanitized messages, the moderation gate of
    `respond_to_query`, the rewrite's emotion tokens, the query and
    knowledge texts, and the image-description branching. Prompts are
    filled in with the `Prompt.replace` of ai.py. The moderation verdict is
    an argument; the client's `generate_response` and the image viewer are
    oracles. */
module PaperChan {
  import opened Base
  import opened Text
  import opened Prompts
  import RootPrompts
  import opened BotSteps

  const RECENT_MEMORY_LENGTH := 5
  const FLAGGED_REPLY := "<:paperdisgusts:1165462194046111774> `Message not processed: flagged by moderation API`"
  const NSFW_REPLY := ":X: I can't see attachments in NSFW channels!"
  const CHAT_MODEL := "gpt-3.5-turbo-0125"

  /** The rewrite's logit bias. Its dict literal names "8823" twice; the
      later value wins and the key keeps its first place. */
  const LOGIT_BIAS := [("9712", -8), ("35734", 3), ("8823", -10), ("2000", 3), ("1568", 3), ("15873", 7)]
  const RESPONSE_PARAMS := RequestParams(CHAT_MODEL, 0.5, 300, [])
  const REWRITE_PARAMS := RequestParams(CHAT_MODEL, 0.4, 300, LOGIT_BIAS)

  /** The arguments of a `generate_response` call: all of them, or only the
      model, the rest left at the client's defaults. */
  datatype GenerateArgs = Full(params: RequestParams) | ModelOnly(model: string)

  type Generate = (Prompt, GenerateArgs) -> Result<string>

  /** `MemorizedMessage` of memorized_message.py; `sent` is the creation
      time as formatted for the text. */
  datatype MemorizedMessage = MemorizedMessage(text: string, nick: string, sent: string, isBot: bool)

  /** The parts of a Discord message the bot reads. `createdAt` is the
      creation time formatted as day/month and time. */
  datatype DiscordMessage = DiscordMessage(content: string, mentions: seq<Mention>, createdAt: string,
                                           authorNick: Option<string>, displayName: string, authorIsBot: bool)

  /** `message.author.nick or message.author.display_name`: an empty nick
      counts as none. */
  function AuthorName(m: DiscordMessage): string
  {
    if m.authorNick.Some? && m.authorNick.value != "" then m.authorNick.value else m.displayName
  }

  /** `MemorizedMessage.of_discord_message` with the sanitized text. */
  function OfDiscordMessage(m: DiscordMessage, text: string): MemorizedMessage
  {
    MemorizedMessage("[" + m.createdAt + " by " + AuthorName(m) + "] " + text, AuthorName(m), m.createdAt, m.authorIsBot)
  }

  class PaperChan {
    const botId: int
    var memory: seq<MemorizedMessage>

    constructor (botId: int)
      ensures this.botId == botId && memory == []
    {
      this.botId := botId;
      memory := [];
    }

    /** `memorize_short_term`: the sanitized message appended, the oldest
        dropped once there are more than five. */
    method MemorizeShortTerm(m: DiscordMessage)
      modifies this
      ensures memory == AppendBounded(old(memory), OfDiscordMessage(m, SanitizeStr(ReplaceMentions(m.content, m.mentions), botId)),
                                      RECENT_MEMORY_LENGTH)
    {
      var text := SanitizeMsg(m.content, m.mentions, botId);
      memory := memory + [OfDiscordMessage(m, text)];
      if |memory| > RECENT_MEMORY_LENGTH {
        memory := memory[1..];
      }
    }
  }

  /** The memory after memorizing `ms` in order, starting empty. */
  function Remembered(ms: seq<MemorizedMessage>): seq<MemorizedMessage>
  {
    if ms == [] then [] else AppendBounded(Remembered(ms[..|ms| - 1]), ms[|ms| - 1], RECENT_MEMORY_LENGTH)
  }

  /** The memory is exactly the last five messages memorized (all of them
      while there are fewer), in order. */
  lemma {:induction false} RememberedIsLastFive(ms: seq<MemorizedMessage>)
    ensures Remembered(ms) == ms[|ms| - Min(|ms|, RECENT_MEMORY_LENGTH)..]
  {
    if ms != [] {
      var init := ms[..|ms| - 1];
      RememberedIsLastFive(init);
      var n := |init| - Min(|init|, RECENT_MEMORY_LENGTH);
      assert init[n..] + [ms[|ms| - 1]] == ms[n..];
    }
  }

  /** `personality_rewrite`: "<message>" in the rewriter prompt replaced by
      the completion; every emotion token in the answer becomes an emoji.
      `plus` is the random pick for "[[+1]]". */
  function PersonalityRewrite(rewriterPrompt: Prompt, message: string, generate: Generate, plus: string): Result<string>
  {
    match RootPrompts.Replaced(rewriterPrompt, "<message>", message)
    case Err(e) => Err(e)
    case Ok(p) =>
      match generate(p, Full(REWRITE_PARAMS))
      case Err(e) => Err(e)
      case Ok(c) => Ok(SubstituteTokens(c, "[[+1]]", "[[-1]]", "[[0]]", plus))
  }

  /** `respond_to_query`: a flagged message gets the fixed refusal; any
      other is answered from the built prompt and rewritten in character. */
  function RespondToQuery(flagged: bool, prompt: Result<Prompt>, rewriterPrompt: Prompt, generate: Generate, plus: string): Result<string>
  {
    if flagged then Ok(FLAGGED_REPLY)
    else
      match prompt
      case Err(e) => Err(e)
      case Ok(p) =>
        match generate(p, Full(RESPONSE_PARAMS))
        case Err(e) => Err(e)
        case Ok(c) => PersonalityRewrite(rewriterPrompt, c, generate, plus)
  }

  /** The refusal does not depend on the prompt or the model: a flagged
      message is answered even when building the prompt would fail. An
      unflagged message whose prompt fails gets that error. */
  lemma ModerationGate(prompt: Result<Prompt>, rewriterPrompt: Prompt, generate: Generate, plus: string)
    ensures RespondToQuery(true, prompt, rewriterPrompt, generate, plus) == Ok(FLAGGED_REPLY)
    ensures prompt.Err? ==> RespondToQuery(false, prompt, rewriterPrompt, generate, plus) == Err(prompt.error)
    ensures RespondToQuery(false, prompt, rewriterPrompt, generate, plus).Ok? ==>
              prompt.Ok? && generate(prompt.value, Full(RESPONSE_PARAMS)).Ok?
  {
  }

  /** An answer without '[' holds no token and is returned as it is. */
  lemma TokenFreeAnswer(content: string, plus: string)
    requires forall k :: 0 <= k < |content| ==> content[k] != '['
    ensures SubstituteTokens(content, "[[+1]]", "[[-1]]", "[[0]]", plus) == content
  {
    NoFirstCharAbsent(content, "[[+1]]", plus);
    NoFirstCharAbsent(content, "[[-1]]", MINUS_EMOJI);
    NoFirstCharAbsent(content, "[[0]]", ZERO_EMOJI);
  }

  /** A "[[+1]]" token between texts without '[' becomes the picked emoji. */
  lemma PlusTokenFilled(before: string, after: string, plus: string)
    requires forall k :: 0 <= k < |before| ==> before[k] != '['
    requires forall k :: 0 <= k < |after| ==> after[k] != '['
    requires plus in PLUS_EMOJIS
    ensures SubstituteTokens(before + "[[+1]]" + after, "[[+1]]", "[[-1]]", "[[0]]", plus) == before + plus + after
  {
    var s := before + plus + after;
    ReplaceFillsIn(before, "[[+1]]", after, plus);
    assert forall k :: 0 <= k < |plus| ==> plus[k] != '[';
    assert forall k :: 0 <= k < |s| ==> s[k] != '[';
    NoFirstCharAbsent(s, "[[-1]]", MINUS_EMOJI);
    NoFirstCharAbsent(s, "[[0]]", ZERO_EMOJI);
  }

  /** The loop of `fetch_last_user_query`: each memorized text after a
      newline. */
  function QueryText(memory: seq<MemorizedMessage>): string
  {
    if memory == [] then "" else QueryText(memory[..|memory| - 1]) + "\n" + memory[|memory| - 1].text
  }

  method BuildQueryText(memory: seq<MemorizedMessage>) returns (r: string)
    ensures r == QueryText(memory)
  {
    r := "";
    for i := 0 to |memory|
      invariant r == QueryText(memory[..i])
    {
      assert memory[..i + 1][..i] == memory[..i];
      r := r + "\n" + memory[i].text;
    }
    assert memory[..|memory|] == memory;
  }

  function MemoryTexts(memory: seq<MemorizedMessage>): seq<string>
  {
    seq(|memory|, i requires 0 <= i < |memory| => memory[i].text)
  }

  /** Unlike the kami-chan query, which joins the texts with newlines, this
      one also starts with a newline. */
  lemma {:induction false} QueryTextIsJoin(memory: seq<MemorizedMessage>)
    requires memory != []
    ensures QueryText(memory) == "\n" + Join(MemoryTexts(memory), "\n")
  {
    var init := memory[..|memory| - 1];
    if init == [] {
      assert MemoryTexts(memory) == [memory[0].text];
    } else {
      QueryTextIsJoin(init);
      assert MemoryTexts(memory) == MemoryTexts(init) + [memory[|memory| - 1].text];
      JoinSnoc(MemoryTexts(init), memory[|memory| - 1].text, "\n");
    }
  }

  /** `fetch_last_user_query`: "((user_query))" gets the query text and
      "((last_user))" the nick of the last memorized message (IndexError on
      an empty memory). */
  function FetchLastUserQuery(memory: seq<MemorizedMessage>, summarizerPrompt: Prompt, generate: Generate): Result<string>
  {
    if memory == [] then Err(IndexError)
    else
      match RootPrompts.Replaced(summarizerPrompt, "((user_query))", QueryText(memory))
      case Err(e) => Err(e)
      case Ok(p1) =>
        match RootPrompts.Replaced(p1, "((last_user))", memory[|memory| - 1].nick)
        case Err(e) => Err(e)
        case Ok(p2) => generate(p2, ModelOnly(CHAT_MODEL))
  }

  /** The retrieval query text: every result after "INFO: \n", then
      "QUERY: " and the query; without a check for an empty result. */
  function SummaryQuery(hits: seq<string>, userQuery: string): string
  {
    InfoText("INFO: \n", hits) + "QUERY: " + userQuery
  }

  /** With results, the same text kami-chan builds; with none, the request
      is still made, with only the query. */
  lemma SummaryQueryCases(hits: seq<string>, userQuery: string)
    ensures hits == [] ==> SummaryQuery(hits, userQuery) == "QUERY: " + userQuery
    ensures hits != [] ==> Some(SummaryQuery(hits, userQuery)) == InfoQuery("INFO: \n", hits, userQuery)
  {
  }

  /** `summarize_relevant_facts`: the search runs on the sanitized query. */
  function SummarizeRelevantFacts(botId: int, userQuery: string, search: string -> seq<string>,
                                  selectorPrompt: Prompt, generate: Generate): Result<string>
  {
    match RootPrompts.Replaced(selectorPrompt, "((user_query))", SummaryQuery(search(SanitizeStr(userQuery, botId)), userQuery))
    case Err(e) => Err(e)
    case Ok(p) => generate(p, ModelOnly(CHAT_MODEL))
  }

  /** `describe_image_if_present`; `view` is the image viewer, given the
      attachment's URL and the message content. A lone attachment with no
      content type raises AttributeError on `startswith`. */
  function DescribeImage(attachments: seq<Attachment>, nsfw: bool, content: string, view: (string, string) -> Result<string>): ImageOutcome
  {
    if |attachments| != 1 then ImageOutcome([], Ok(None))
    else if nsfw then ImageOutcome([Reply(NSFW_REPLY)], Ok(None))
    else
      var a := attachments[0];
      if a.contentType.None? then ImageOutcome([], Err(AttributeError))
      else if !StartsWith(a.contentType.value, "image/") then ImageOutcome([], Ok(None))
      else
        match view(a.url, content)
        case Err(e) => ImageOutcome([React(EYES)], Err(e))
        case Ok(d) => ImageOutcome([React(EYES)], Ok(Some(d)))
  }

  /** The viewer is asked exactly for a lone image attachment outside NSFW
      channels, after the eyes reaction; an NSFW channel gets the reply and
      None whatever is attached. */
  lemma DescribeImageBranches(attachments: seq<Attachment>, nsfw: bool, content: string, view: (string, string) -> Result<string>)
    ensures var o := DescribeImage(attachments, nsfw, content, view);
            (o.effects == [React(EYES)]) <==> |attachments| == 1 && !nsfw && IsImage(attachments[0])
    ensures |attachments| == 1 && nsfw ==>
              DescribeImage(attachments, nsfw, content, view) == ImageOutcome([Reply(NSFW_REPLY)], Ok(None))
    ensures |attachments| == 1 && !nsfw && attachments[0].contentType.None? ==>
              DescribeImage(attachments, nsfw, content, view).description == Err(AttributeError)
    ensures |attachments| != 1 ==> DescribeImage(attachments, nsfw, content, view) == ImageOutcome([], Ok(None))
  {
  }
}
