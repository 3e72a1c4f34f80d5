/** The kami-chan bot (kami_chan/kami_chan.py): its `DiscordBotResponse`
    with the verbose log, the fallback cascade that collects every error,
    the rewrite post-processing (strip, drop "REWRITTEN: ", emotion tokens
    to emoji), the query and knowledge steps, and the image-description
    branching. Prompts are filled in with the `Prompt.replace` of ai.py.
    Each LLM client call is the oracle `send`, given the client's provider
    name, the prompt and the request parameters. */
module KamiChan {
  import opened Base
  import opened Text
  import opened Prompts
  import RootPrompts
  import opened BotSteps

  const MAIN_CLIENT_NAME := "DEFAULT"
  const PERSONALITY_REWRITER_NAME := "KAMI_CHAN_PERSONALITY_REWRITER"
  const IMAGE_VIEWER_NAME := "KAMI_CHAN_IMAGE_VIEWER"

  /** The models `create` hands to `create_or_fallback`, in order. */
  const MODELS := ["google/gemini-pro-1.5-exp", "openai/gpt-4o-mini", "meta-llama/llama-3.1-405b-instruct"]

  /** `LLMRequest` fields left at their defaults take temperature 0.5, at
      most 300 tokens and no logit bias. */
  const REWRITE_PARAMS := RequestParams("meta-llama/llama-3.1-405b-instruct", 0.3, 2000, [])
  const SUMMARIZER_PARAMS := RequestParams("meta-llama/llama-3.1-405b-instruct", 0.2, 300, [])
  const SELECTOR_PARAMS := RequestParams("gpt-4o-mini", 0.5, 300, [])
  const VIEWER_PARAMS := RequestParams("google/gemini-pro-1.5", 0.5, 300, [])

  const REWRITTEN_PREFIX := "REWRITTEN: "
  const NSFW_REPLY := ":X: I can't see attachments in NSFW channels!"
  const VIEW_INTRO := "Describe the image in a sufficient way to answer the following query: "
  /** The eyes emoji as the source file spells it: its UTF-8 bytes read as
      Windows-1252 text. */
  const MOJIBAKE_EYES := "\U{F0}\U{178}\U{2018}\U{20AC}"

  /** A call to one of the bot's LLM clients. */
  type Send = (string, Prompt, RequestParams) -> Result<string>

  /** `DiscordBotResponse`: the text of its verbose log. */
  class DiscordBotResponse {
    var verboseLog: string

    constructor ()
      ensures verboseLog == ""
    {
      verboseLog := "";
    }

    /** `log_verbose`: one entry appended; what was logged before is kept. */
    method LogVerbose(time: string, text: string, category: Option<string>)
      modifies this
      ensures verboseLog == old(verboseLog) + LogEntry(time, text, category)
    {
      verboseLog := verboseLog + LogEntry(time, text, category);
    }
  }

  /** The chain applied to the rewriter's answer. `plus` is the random pick
      for "<+1>". */
  function PostProcess(content: string, plus: string): string
  {
    SubstituteTokens(RemovePrefix(Strip(content), REWRITTEN_PREFIX), "<+1>", "<-1>", "<0>", plus)
  }

  /** `personality_rewrite`: "<message>" in the rewriter prompt replaced by
      the completion, the rewriter's answer post-processed. */
  function PersonalityRewrite(rewriterPrompt: Prompt, message: string, send: Send, plus: string): Result<string>
  {
    match RootPrompts.Replaced(rewriterPrompt, "<message>", message)
    case Err(e) => Err(e)
    case Ok(p) =>
      match send(PERSONALITY_REWRITER_NAME, p, REWRITE_PARAMS)
      case Err(e) => Err(e)
      case Ok(c) => Ok(PostProcess(c, plus))
  }

  /** One attempt of `create_or_fallback`: any exception fails it. */
  function AttemptModel(prompt: Prompt, name: string, rewriterPrompt: Prompt, send: Send, plus: string): Result<string>
  {
    match send(MAIN_CLIENT_NAME, prompt, RequestParams(name, 0.0, 2000, []))
    case Err(e) => Err(e)
    case Ok(completion) => PersonalityRewrite(rewriterPrompt, completion, send, plus)
  }

  function Attempt(prompt: Prompt, rewriterPrompt: Prompt, send: Send, plus: string): string -> Result<string>
  {
    name => AttemptModel(prompt, name, rewriterPrompt, send, plus)
  }

  /** `all_errors`: the error of every attempt that failed, in order. */
  function Failures(names: seq<string>, attempt: string -> Result<string>): seq<Error>
  {
    if names == [] then []
    else if attempt(names[0]).Ok? then []
    else [attempt(names[0]).error] + Failures(names[1..], attempt)
  }

  lemma FailuresStep(names: seq<string>, i: nat, attempt: string -> Result<string>)
    requires i < |names|
    ensures Failures(names[i..], attempt)
            == if attempt(names[i]).Ok? then [] else [attempt(names[i]).error] + Failures(names[i + 1..], attempt)
  {
    assert names[i..][0] == names[i] && names[i..][1..] == names[i + 1..];
  }

  /** Every attempt before the one that returned failed and left its error;
      when all fail, there is one error per model, in model order. */
  lemma {:induction false} FailuresMatchAttempts(names: seq<string>, attempt: string -> Result<string>)
    ensures Cascade(names, attempt).Ok? ==> |Failures(names, attempt)| == |Tried(names, attempt)| - 1
    ensures Cascade(names, attempt).Err? ==>
              |Failures(names, attempt)| == |names|
              && forall i :: 0 <= i < |names| ==>
                   attempt(names[i]).Err? && Failures(names, attempt)[i] == attempt(names[i]).error
  {
    if names != [] && attempt(names[0]).Err? {
      FailuresMatchAttempts(names[1..], attempt);
      CascadeFirstSuccess(names[1..], attempt);
      if Cascade(names, attempt).Err? {
        forall i | 0 <= i < |names|
          ensures attempt(names[i]).Err? && Failures(names, attempt)[i] == attempt(names[i]).error
        {
          if i > 0 {
            assert names[i] == names[1..][i - 1];
          }
        }
      }
    }
  }

  /** `create_or_fallback`: the prompt is built once (its error escapes);
      the models are tried in order until one returns. */
  method CreateOrFallback(prompt: Result<Prompt>, modelNames: seq<string>, rewriterPrompt: Prompt, send: Send, plus: string)
    returns (r: Result<string>, allErrors: seq<Error>)
    ensures prompt.Err? ==> r == Err(prompt.error) && allErrors == []
    ensures prompt.Ok? ==>
              var att := Attempt(prompt.value, rewriterPrompt, send, plus);
              r == Cascade(modelNames, att) && allErrors == Failures(modelNames, att)
  {
    if prompt.Err? {
      return Err(prompt.error), [];
    }
    var p := prompt.value;
    var att := Attempt(p, rewriterPrompt, send, plus);
    allErrors := [];
    for i := 0 to |modelNames|
      invariant Cascade(modelNames, att) == Cascade(modelNames[i..], att)
      invariant Failures(modelNames, att) == allErrors + Failures(modelNames[i..], att)
    {
      var out := att(modelNames[i]);
      if out.Ok? {
        assert Cascade(modelNames, att) == out && Failures(modelNames, att) == allErrors by {
          CascadeStep(modelNames, i, att);
          FailuresStep(modelNames, i, att);
          assert allErrors + [] == allErrors;
        }
        return out, allErrors;
      }
      ghost var rest := Failures(modelNames[i + 1..], att);
      assert Cascade(modelNames, att) == Cascade(modelNames[i + 1..], att)
             && Failures(modelNames[i..], att) == [out.error] + rest by {
        CascadeStep(modelNames, i, att);
        FailuresStep(modelNames, i, att);
      }
      assert allErrors + ([out.error] + rest) == (allErrors + [out.error]) + rest;
      allErrors := allErrors + [out.error];
    }
    assert modelNames[|modelNames|..] == [];
    return Err(RuntimeError(ALL_FAILED)), allErrors;
  }

  /** `create`: the cascade over the three fixed models. */
  method Create(prompt: Result<Prompt>, rewriterPrompt: Prompt, send: Send, plus: string)
    returns (r: Result<string>, allErrors: seq<Error>)
    ensures prompt.Err? ==> r == Err(prompt.error) && allErrors == []
    ensures prompt.Ok? ==>
              var att := Attempt(prompt.value, rewriterPrompt, send, plus);
              r == Cascade(MODELS, att) && allErrors == Failures(MODELS, att)
              && |allErrors| <= 3 && (r.Err? ==> |allErrors| == 3)
  {
    r, allErrors := CreateOrFallback(prompt, MODELS, rewriterPrompt, send, plus);
    if prompt.Ok? {
      FailuresMatchAttempts(MODELS, Attempt(prompt.value, rewriterPrompt, send, plus));
      CascadeFirstSuccess(MODELS, Attempt(prompt.value, rewriterPrompt, send, plus));
    }
  }

  /** The Gemini model is always tried first. */
  lemma GeminiTriedFirst(prompt: Prompt, rewriterPrompt: Prompt, send: Send, plus: string)
    ensures var t := Tried(MODELS, Attempt(prompt, rewriterPrompt, send, plus));
            t != [] && t[0] == "google/gemini-pro-1.5-exp"
  {
  }

  /** An answer without '<' holds no token: post-processing only strips it
      and drops the "REWRITTEN: " prefix. */
  lemma TokenFreeAnswer(content: string, plus: string)
    requires forall k :: 0 <= k < |content| ==> content[k] != '<'
    ensures PostProcess(content, plus) == RemovePrefix(Strip(content), REWRITTEN_PREFIX)
  {
    StripKeepsAbsent(content, '<');
    var s := Strip(content);
    var t := RemovePrefix(s, REWRITTEN_PREFIX);
    assert forall k :: 0 <= k < |t| ==> t[k] == s[|s| - |t| + k];
    NoFirstCharAbsent(t, "<+1>", plus);
    NoFirstCharAbsent(t, "<-1>", MINUS_EMOJI);
    NoFirstCharAbsent(t, "<0>", ZERO_EMOJI);
  }

  /** Each "+1" emoji starts with "<:" and holds no other '<'. */
  lemma PlusEmojiShape(plus: string)
    requires plus in PLUS_EMOJIS
    ensures |plus| >= 2 && plus[0] == '<' && plus[1] == ':'
    ensures forall k :: 1 <= k < |plus| ==> plus[k] != '<'
  {
  }

  /** A "<+1>" token between texts without '<' becomes the picked emoji,
      which the later replacements leave alone. */
  lemma PlusTokenFilled(before: string, after: string, plus: string)
    requires forall k :: 0 <= k < |before| ==> before[k] != '<'
    requires forall k :: 0 <= k < |after| ==> after[k] != '<'
    requires plus in PLUS_EMOJIS
    ensures SubstituteTokens(before + "<+1>" + after, "<+1>", "<-1>", "<0>", plus) == before + plus + after
  {
    var e := plus + after;
    assert Replace(before + "<+1>" + after, "<+1>", plus) == before + e by {
      ReplaceFillsIn(before, "<+1>", after, plus);
      assert before + plus + after == before + e;
    }
    assert |e| >= 2 && e[0] == '<' && e[1] == ':' && forall k :: 1 <= k < |e| ==> e[k] != '<' by {
      PlusEmojiShape(plus);
    }
    assert Replace(before + e, "<-1>", MINUS_EMOJI) == before + e by {
      EmojiSurvives(before, e, "<-1>", MINUS_EMOJI);
    }
    assert Replace(before + e, "<0>", ZERO_EMOJI) == before + e by {
      EmojiSurvives(before, e, "<0>", ZERO_EMOJI);
    }
    assert before + e == before + plus + after;
  }

  /** An emoji "<:...>" after text without '<' is left alone by a
      replacement of a token that starts with '<' but not with "<:". */
  lemma EmojiSurvives(before: string, e: string, pat: string, rep: string)
    requires forall k :: 0 <= k < |before| ==> before[k] != '<'
    requires |e| >= 2 && e[0] == '<' && e[1] == ':' && forall k :: 1 <= k < |e| ==> e[k] != '<'
    requires |pat| >= 2 && pat[0] == '<' && pat[1] != ':'
    ensures Replace(before + e, pat, rep) == before + e
  {
    ReplacePassThrough(before, e, pat, rep);
    LeadMismatchUnchanged(e, pat, rep);
  }

  /** `fetch_last_user_query`: the summarizer prompt gets the remembered
      texts joined by newlines for "((user_query))" and the last nick for
      "((last_user))". */
  function FetchLastUserQuery(memory: seq<Message>, summarizerPrompt: Prompt, send: Send): Result<string>
  {
    match RephraseInputs(memory)
    case Err(e) => Err(e)
    case Ok(inputs) =>
      match RootPrompts.Replaced(summarizerPrompt, "((user_query))", inputs.0)
      case Err(e) => Err(e)
      case Ok(p1) =>
        match RootPrompts.Replaced(p1, "((last_user))", inputs.1)
        case Err(e) => Err(e)
        case Ok(p2) => send(MAIN_CLIENT_NAME, p2, SUMMARIZER_PARAMS)
  }

  /** An empty memory raises IndexError; a summarizer prompt of strings
      without "((user_query))" raises ValueError. */
  lemma FetchLastUserQueryErrors(memory: seq<Message>, summarizerPrompt: Prompt, send: Send)
    ensures memory == [] ==> FetchLastUserQuery(memory, summarizerPrompt, send) == Err(IndexError)
    ensures memory != [] && RootPrompts.AllStrings(summarizerPrompt.messages)
            && (forall i, k :: 0 <= i < |summarizerPrompt.messages| && 0 <= k < |summarizerPrompt.messages[i]|
                  ==> !Contains(summarizerPrompt.messages[i][k].value.s, "((user_query))"))
            ==> FetchLastUserQuery(memory, summarizerPrompt, send) == Err(ValueError)
  {
    RootPrompts.ReplaceSucceeds(summarizerPrompt, "((user_query))", Join(Texts(memory), "\n"));
  }

  /** `summarize_relevant_facts`: the knowledge search runs on the
      sanitized query; no result gives None; otherwise the selector prompt
      gets every result after "INFO: \n" and then "QUERY: " with the query
      as given, and the answer comes back followed by a newline. */
  function SummarizeRelevantFacts(botId: int, userQuery: string, search: string -> seq<string>,
                                  selectorPrompt: Prompt, send: Send): Result<Option<string>>
  {
    match InfoQuery("INFO: \n", search(SanitizeStr(userQuery, botId)), userQuery)
    case None => Ok(None)
    case Some(q) =>
      match RootPrompts.Replaced(selectorPrompt, "((user_query))", q)
      case Err(e) => Err(e)
      case Ok(p) =>
        match send(MAIN_CLIENT_NAME, p, SELECTOR_PARAMS)
        case Err(e) => Err(e)
        case Ok(c) => Ok(Some(c + "\n"))
  }

  /** None exactly when the search finds nothing; a summary ends with a
      newline. */
  lemma SummarizeNoneIffNoHits(botId: int, userQuery: string, search: string -> seq<string>,
                               selectorPrompt: Prompt, send: Send)
    ensures var r := SummarizeRelevantFacts(botId, userQuery, search, selectorPrompt, send);
            (r == Ok(None) <==> search(SanitizeStr(userQuery, botId)) == [])
            && (r.Ok? && r.value.Some? ==> EndsWith(r.value.value, "\n"))
  {
    var r := SummarizeRelevantFacts(botId, userQuery, search, selectorPrompt, send);
    if r.Ok? && r.value.Some? {
      var t := r.value.value;
      assert t[|t| - 1..] == "\n";
    }
  }

  /** `describe_image_if_present`. A lone attachment with no content type
      raises AttributeError on `startswith`. */
  function DescribeImage(attachments: seq<Attachment>, nsfw: bool, content: string, send: Send): ImageOutcome
  {
    if |attachments| != 1 then ImageOutcome([], Ok(None))
    else if nsfw then ImageOutcome([Reply(NSFW_REPLY)], Ok(None))
    else
      var a := attachments[0];
      if a.contentType.None? then ImageOutcome([], Err(AttributeError))
      else if !StartsWith(a.contentType.value, "image/") then ImageOutcome([], Ok(None))
      else
        match send(IMAGE_VIEWER_NAME, ViewRequest(VIEW_INTRO, content, a.url), VIEWER_PARAMS)
        case Err(e) => ImageOutcome([React(MOJIBAKE_EYES)], Err(e))
        case Ok(d) => ImageOutcome([React(MOJIBAKE_EYES)], Ok(Some(d)))
  }

  /** The viewer is asked exactly for a lone image attachment outside NSFW
      channels, after the eyes reaction; an NSFW channel gets the reply and
      None whatever is attached; a lone attachment with no content type
      raises. */
  lemma DescribeImageBranches(attachments: seq<Attachment>, nsfw: bool, content: string, send: Send)
    ensures var o := DescribeImage(attachments, nsfw, content, send);
            (o.effects == [React(MOJIBAKE_EYES)]) <==> |attachments| == 1 && !nsfw && IsImage(attachments[0])
    ensures |attachments| == 1 && nsfw ==>
              DescribeImage(attachments, nsfw, content, send) == ImageOutcome([Reply(NSFW_REPLY)], Ok(None))
    ensures |attachments| == 1 && !nsfw && attachments[0].contentType.None? ==>
              DescribeImage(attachments, nsfw, content, send).description == Err(AttributeError)
    ensures |attachments| != 1 ==> DescribeImage(attachments, nsfw, content, send) == ImageOutcome([], Ok(None))
  {
  }
}
