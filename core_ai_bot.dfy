/** `DiscordBotResponse` of the current revision (core/bot_workflow/ai_bot.py):
    the fallback cascade of `create`, the in-character step of each attempt,
    the usable history, the knowledge-retrieval branch of the full prompt
    and the image-description branching. Every LLM call is an oracle
    argument: `send` answers a completion request (or raises), `rewrite`
    is the personality-rewrite step, `view` the vision request. */
module CoreAiBot {
  import opened Base
  import opened Text
  import opened Prompts
  import opened History
  import CorePrompts
  import opened BotSteps

  /** The LLM steps of one attempt and the `re.sub` of the replacement
      chain. */
  datatype Steps = Steps(send: (Prompt, RequestParams) -> Result<string>,
                         rewrite: string -> Result<Option<string>>,
                         sub: (string, string, string) -> Option<string>)

  const REWRITE_EMPTY := "Personality rewrite step returned empty response"

  /** `_respond_in_character`: the completion is requested and only logged;
      the personality rewrite is given the triggering message's text; its
      output goes through the regex replacements. */
  function RespondInCharacter(prompt: Prompt, params: RequestParams, userText: string,
                              regex: seq<(string, string)>, steps: Steps): Result<string>
  {
    match steps.send(prompt, params)
    case Err(e) => Err(e)
    case Ok(_) =>
      match steps.rewrite(userText)
      case Err(e) => Err(e)
      case Ok(None) => Err(RuntimeError(REWRITE_EMPTY))
      case Ok(Some(t)) => ApplyRegexReplacements(t, regex, steps.sub)
  }

  /** The parameters of one attempt: the defaults with only the model name
      changed. */
  function WithModel(defaults: RequestParams, name: string): RequestParams
  {
    RequestParams(name, defaults.temperature, defaults.maxTokens, defaults.logitBias)
  }

  /** `[default_params.model_name] + llm_fallbacks` */
  function Candidates(defaults: RequestParams, fallbacks: seq<string>): seq<string>
  {
    [defaults.modelName] + fallbacks
  }

  function Attempt(prompt: Prompt, defaults: RequestParams, userText: string,
                   regex: seq<(string, string)>, steps: Steps): string -> Result<string>
  {
    name => RespondInCharacter(prompt, WithModel(defaults, name), userText, regex, steps)
  }

  /** `create`: the prompt is built once, before the loop, and its failure
      is not retried; then each candidate is tried in order until one
      returns. `tried` lists the parameters of the attempts made. */
  method Create(prompt: Result<Prompt>, defaults: RequestParams, fallbacks: seq<string>, userText: string,
                regex: seq<(string, string)>, steps: Steps)
    returns (r: Result<string>, tried: seq<RequestParams>)
    ensures prompt.Err? ==> r == Err(prompt.error) && tried == []
    ensures prompt.Ok? ==>
              var att := Attempt(prompt.value, defaults, userText, regex, steps);
              var names := Tried(Candidates(defaults, fallbacks), att);
              r == Cascade(Candidates(defaults, fallbacks), att)
              && |tried| == |names|
              && forall k :: 0 <= k < |tried| ==> tried[k] == WithModel(defaults, names[k])
  {
    if prompt.Err? {
      return Err(prompt.error), [];
    }
    var p := prompt.value;
    var names := Candidates(defaults, fallbacks);
    ghost var att := Attempt(p, defaults, userText, regex, steps);
    tried := [];
    for i := 0 to |names|
      invariant Cascade(names, att) == Cascade(names[i..], att)
      invariant Tried(names, att) == names[..i] + Tried(names[i..], att)
      invariant tried == ParamsOf(defaults, names[..i])
    {
      var params := WithModel(defaults, names[i]);
      var out := RespondInCharacter(p, params, userText, regex, steps);
      assert att(names[i]) == out;
      assert names[..i + 1] == names[..i] + [names[i]];
      if out.Ok? {
        assert Cascade(names, att) == out && Tried(names, att) == names[..i + 1] by {
          CascadeStep(names, i, att);
        }
        tried := tried + [params];
        assert tried == ParamsOf(defaults, names[..i + 1]);
        return out, tried;
      }
      ghost var rest := Tried(names[i + 1..], att);
      assert Cascade(names, att) == Cascade(names[i + 1..], att)
             && Tried(names[i..], att) == [names[i]] + rest by {
        CascadeStep(names, i, att);
      }
      assert names[..i] + ([names[i]] + rest) == names[..i + 1] + rest;
      tried := tried + [params];
      assert tried == ParamsOf(defaults, names[..i + 1]);
    }
    assert names[|names|..] == [];
    assert names[..|names|] == names;
    return Err(RuntimeError(ALL_FAILED)), tried;
  }

  /** The parameters of the attempts at `names`, in order. */
  function ParamsOf(defaults: RequestParams, names: seq<string>): (r: seq<RequestParams>)
    ensures |r| == |names| && forall k :: 0 <= k < |r| ==> r[k] == WithModel(defaults, names[k])
  {
    seq(|names|, k requires 0 <= k < |names| => WithModel(defaults, names[k]))
  }

  /** The first candidate is the default model, so it is always tried first,
      with the default parameters. */
  lemma DefaultTriedFirst(prompt: Prompt, defaults: RequestParams, fallbacks: seq<string>, userText: string,
                          regex: seq<(string, string)>, steps: Steps)
    ensures var att := Attempt(prompt, defaults, userText, regex, steps);
            var names := Tried(Candidates(defaults, fallbacks), att);
            names != [] && WithModel(defaults, names[0]) == defaults
  {
  }

  /** An attempt's answer does not depend on the completion text: two
      providers that succeed on the same request give the same answer,
      because only the user's text reaches the rewrite step. */
  lemma CompletionOnlyLogged(prompt: Prompt, params: RequestParams, userText: string,
                             regex: seq<(string, string)>, s1: Steps, s2: Steps)
    requires s1.rewrite == s2.rewrite && s1.sub == s2.sub
    requires s1.send(prompt, params).Ok? && s2.send(prompt, params).Ok?
    ensures RespondInCharacter(prompt, params, userText, regex, s1)
            == RespondInCharacter(prompt, params, userText, regex, s2)
  {
  }

  /** A rewrite step that returns None fails the attempt, so the cascade
      moves on; if it does so for every candidate, `create` raises. */
  lemma EmptyRewriteFailsAll(prompt: Prompt, defaults: RequestParams, fallbacks: seq<string>, userText: string,
                             regex: seq<(string, string)>, steps: Steps)
    requires steps.rewrite(userText) == Ok(None)
    ensures Cascade(Candidates(defaults, fallbacks), Attempt(prompt, defaults, userText, regex, steps))
            == Err(RuntimeError(ALL_FAILED))
  {
    var att := Attempt(prompt, defaults, userText, regex, steps);
    var names := Candidates(defaults, fallbacks);
    CascadeFirstSuccess(names, att);
  }

  /** As written, the rewrite step is built without its `logger`
      argument, so it raises TypeError on every attempt and `create` always
      ends in "all fallbacks failed". */
  lemma AsWrittenRewriteFailsAll(prompt: Prompt, defaults: RequestParams, fallbacks: seq<string>, userText: string,
                                 regex: seq<(string, string)>, steps: Steps)
    requires steps.rewrite(userText) == Err(TypeError)
    ensures Cascade(Candidates(defaults, fallbacks), Attempt(prompt, defaults, userText, regex, steps))
            == Err(RuntimeError(ALL_FAILED))
  {
    var att := Attempt(prompt, defaults, userText, regex, steps);
    var names := Candidates(defaults, fallbacks);
    CascadeFirstSuccess(names, att);
  }

  const USABLE_HISTORY_LENGTH := 14

  /** `_get_usable_message_history_before`: the last 14 finalized messages,
      then the triggering message. */
  function UsableHistory(finalized: seq<Message>, current: Message): seq<Message>
  {
    PyTail(finalized, USABLE_HISTORY_LENGTH) + [current]
  }

  /** Taken from the finalized view of the shared history, the usable
      history holds at most 14 earlier messages, none of them pending, in
      history order, and ends with the triggering message. */
  lemma UsableHistoryFinalized(memory: seq<Message>, pending: set<int>, current: Message)
    ensures var u := UsableHistory(Finalized(memory, pending), current);
            var f := Finalized(memory, pending);
            1 <= |u| <= USABLE_HISTORY_LENGTH + 1 && u[|u| - 1] == current
            && u[..|u| - 1] == f[|f| - (|u| - 1)..]
            && forall k :: 0 <= k < |u| - 1 ==> u[k].messageId !in pending && u[k] in memory
  {
    var f := Finalized(memory, pending);
    var u := UsableHistory(f, current);
    FinalizedExactlyNonPending(memory, pending);
    FinalizedSubset(memory, pending);
    assert u[..|u| - 1] == PyTail(f, USABLE_HISTORY_LENGTH);
    forall k | 0 <= k < |u| - 1
      ensures u[k].messageId !in pending && u[k] in memory
    {
      assert u[k] == f[|f| - (|u| - 1) + k];
      assert u[k] in f;
    }
  }

  lemma {:induction false} FinalizedSubset(mem: seq<Message>, pending: set<int>)
    ensures forall m :: m in Finalized(mem, pending) ==> m in mem
  {
    if mem != [] {
      FinalizedSubset(mem[1..], pending);
    }
  }

  /** One prompt message per remembered message: the bot's as assistant,
      everyone else's as user. */
  function HistoryMessages(h: seq<Message>): seq<Msg>
  {
    seq(|h|, i requires 0 <= i < |h| => if h[i].isBot then AssistantMsg(h[i].text) else UserMsg(h[i].text, None))
  }

  const REPHRASE_EMPTY := "Rephraser step returned empty response"
  const KNOWLEDGE_EMPTY := "Knowledge retrieval step returned empty response"

  /** The user query, the knowledge text and the old memories used by the
      full prompt. With retrieval enabled, an exception of the rephrase or
      the info-select step escapes, and a None from either raises; the
      closest long-term memories are used only when a long-term memory
      exists. */
  function KnowledgeStep(enabled: bool, content: string, rephrase: Result<Option<string>>, knowledge: Result<Option<string>>,
                         closest: Option<seq<string>>): Result<(string, string, string)>
  {
    if !enabled then Ok((content, "", ""))
    else if rephrase.Err? then Err(rephrase.error)
    else if rephrase.value.None? then Err(RuntimeError(REPHRASE_EMPTY))
    else if knowledge.Err? then Err(knowledge.error)
    else if knowledge.value.None? then Err(RuntimeError(KNOWLEDGE_EMPTY))
    else
      var oldMemories := if closest.Some? then Concat(closest.value) else "";
      Ok((rephrase.value.value, "\n[INFO FROM KNOWLEDGE DB]:\n" + knowledge.value.value + "\n", oldMemories))
  }

  function Concat(parts: seq<string>): string
  {
    if parts == [] then "" else parts[0] + Concat(parts[1..])
  }

  /** `_build_full_prompt`: the profile's prompt, one message per usable
      history entry, the image description if one came back non-empty, then
      the four placeholders replaced. `append` on the prompt is read as
      `plus`, so the messages are added to the prompt that is filled in. */
  function BuildFullPrompt(base: Prompt, finalized: seq<Message>, current: Message,
                           enabled: bool, rephrase: Result<Option<string>>, knowledge: Result<Option<string>>,
                           closest: Option<seq<string>>, image: ImageOutcome, now: string, nick: string): Result<Prompt>
  {
    match KnowledgeStep(enabled, current.text, rephrase, knowledge, closest)
    case Err(e) => Err(e)
    case Ok(k) =>
      match image.description
      case Err(e) => Err(e)
      case Ok(desc) =>
        var msgs := base.messages + HistoryMessages(UsableHistory(finalized, current)) + ImageMessage(desc);
        CorePrompts.Replaced(Prompt(msgs), Fills(now, nick, k.1, k.2))
  }

  /** The user message added for an image description that came back
      non-empty. */
  function ImageMessage(desc: Option<string>): seq<Msg>
  {
    if desc.Some? && desc.value != [] then [UserMsg(desc.value, None)] else []
  }

  /** The four placeholders of the full prompt, in the order they are
      filled in. */
  function Fills(now: string, nick: string, knowledgeText: string, oldMemories: string): seq<(string, string)>
  {
    [("now", now), ("nick", nick), ("knowledge", knowledgeText), ("old_memories", oldMemories)]
  }

  /** A built prompt has the profile's messages, one per usable history
      entry and one more for a non-empty image description, with the keys
      of each kept. With retrieval enabled, the rephrase step's exception or
      missing result, then the info-select step's, raises before any
      candidate is tried; without it neither step matters. */
  lemma FullPromptShape(base: Prompt, finalized: seq<Message>, current: Message,
                        enabled: bool, rephrase: Result<Option<string>>, knowledge: Result<Option<string>>,
                        closest: Option<seq<string>>, image: ImageOutcome, now: string, nick: string)
    ensures var r := BuildFullPrompt(base, finalized, current, enabled, rephrase, knowledge, closest, image, now, nick);
            var hasImage := image.description.Ok? && image.description.value.Some? && image.description.value.value != [];
            r.Ok? ==>
              |r.value.messages| == |base.messages| + |UsableHistory(finalized, current)| + (if hasImage then 1 else 0)
              && forall k :: 0 <= k < |base.messages| ==> Keys(r.value.messages[k]) == Keys(base.messages[k])
    ensures enabled && rephrase.Err? ==>
              BuildFullPrompt(base, finalized, current, enabled, rephrase, knowledge, closest, image, now, nick)
                == Err(rephrase.error)
    ensures enabled && rephrase == Ok(None) ==>
              BuildFullPrompt(base, finalized, current, enabled, rephrase, knowledge, closest, image, now, nick)
                == Err(RuntimeError(REPHRASE_EMPTY))
    ensures enabled && rephrase.Ok? && rephrase.value.Some? && knowledge.Err? ==>
              BuildFullPrompt(base, finalized, current, enabled, rephrase, knowledge, closest, image, now, nick)
                == Err(knowledge.error)
    ensures enabled && rephrase.Ok? && rephrase.value.Some? && knowledge == Ok(None) ==>
              BuildFullPrompt(base, finalized, current, enabled, rephrase, knowledge, closest, image, now, nick)
                == Err(RuntimeError(KNOWLEDGE_EMPTY))
    ensures !enabled ==>
              forall r2: Result<Option<string>>, k2: Result<Option<string>> ::
                BuildFullPrompt(base, finalized, current, enabled, r2, k2, closest, image, now, nick)
                == BuildFullPrompt(base, finalized, current, enabled, rephrase, knowledge, closest, image, now, nick)
  {
    var r := BuildFullPrompt(base, finalized, current, enabled, rephrase, knowledge, closest, image, now, nick);
    if r.Ok? {
      var k := KnowledgeStep(enabled, current.text, rephrase, knowledge, closest).value;
      var desc := image.description.value;
      var extra := ImageMessage(desc);
      var msgs := base.messages + HistoryMessages(UsableHistory(finalized, current)) + extra;
      CorePrompts.ReplacedShape(Prompt(msgs), Fills(now, nick, k.1, k.2));
      assert forall j :: 0 <= j < |base.messages| ==> msgs[j] == base.messages[j];
    }
  }

  /** A history entry's prompt message with its text through the
      placeholder chain. */
  function FilledHistoryMessage(m: Message, reps: seq<(string, string)>): Msg
  {
    if m.isBot then AssistantMsg(CorePrompts.ReplaceChain(m.text, reps))
    else UserMsg(CorePrompts.ReplaceChain(m.text, reps), None)
  }

  /** A built prompt is the filled-in list of the profile's messages, the
      usable history's and the image description's. */
  lemma BuiltFrom(base: Prompt, finalized: seq<Message>, current: Message,
                           enabled: bool, rephrase: Result<Option<string>>, knowledge: Result<Option<string>>,
                           closest: Option<seq<string>>, image: ImageOutcome, now: string, nick: string)
    ensures var r := BuildFullPrompt(base, finalized, current, enabled, rephrase, knowledge, closest, image, now, nick);
            r.Ok? ==>
              KnowledgeStep(enabled, current.text, rephrase, knowledge, closest).Ok? && image.description.Ok?
              && var k := KnowledgeStep(enabled, current.text, rephrase, knowledge, closest).value;
                 CorePrompts.MessagesReplaced(base.messages + HistoryMessages(UsableHistory(finalized, current))
                                                + ImageMessage(image.description.value), Fills(now, nick, k.1, k.2))
                   == Ok(r.value.messages)
  {
  }

  /** In a built prompt the profile's messages come first, each filled in
      on its own. */
  lemma FullPromptBase(base: Prompt, finalized: seq<Message>, current: Message,
                           enabled: bool, rephrase: Result<Option<string>>, knowledge: Result<Option<string>>,
                           closest: Option<seq<string>>, image: ImageOutcome, now: string, nick: string)
    ensures var r := BuildFullPrompt(base, finalized, current, enabled, rephrase, knowledge, closest, image, now, nick);
            r.Ok? ==>
              var k := KnowledgeStep(enabled, current.text, rephrase, knowledge, closest).value;
              var reps := Fills(now, nick, k.1, k.2);
              var out := r.value.messages;
              |base.messages| <= |out|
              && forall j :: 0 <= j < |base.messages| ==>
                   CorePrompts.MessageReplaced(base.messages[j], reps).Ok?
                   && out[j] == CorePrompts.MessageReplaced(base.messages[j], reps).value
  {
    BuiltFrom(base, finalized, current, enabled, rephrase, knowledge, closest, image, now, nick);
    var r := BuildFullPrompt(base, finalized, current, enabled, rephrase, knowledge, closest, image, now, nick);
    if r.Ok? {
      var k := KnowledgeStep(enabled, current.text, rephrase, knowledge, closest).value;
      var more := HistoryMessages(UsableHistory(finalized, current)) + ImageMessage(image.description.value);
      assert base.messages + HistoryMessages(UsableHistory(finalized, current)) + ImageMessage(image.description.value)
             == base.messages + more;
      FilledBase(base.messages, more, Fills(now, nick, k.1, k.2));
    }
  }

  /** In a built prompt each usable history entry follows the profile's
      messages, in order, as an assistant message exactly for the bot's
      own, with its text through the placeholder chain (unchanged when it
      has no parenthesis). */
  lemma FullPromptContents(base: Prompt, finalized: seq<Message>, current: Message,
                           enabled: bool, rephrase: Result<Option<string>>, knowledge: Result<Option<string>>,
                           closest: Option<seq<string>>, image: ImageOutcome, now: string, nick: string)
    ensures var r := BuildFullPrompt(base, finalized, current, enabled, rephrase, knowledge, closest, image, now, nick);
            r.Ok? ==>
              var k := KnowledgeStep(enabled, current.text, rephrase, knowledge, closest).value;
              var reps := Fills(now, nick, k.1, k.2);
              var u := UsableHistory(finalized, current);
              var nb := |base.messages|;
              var out := r.value.messages;
              nb + |u| <= |out|
              && (forall j :: 0 <= j < |u| ==> out[nb + j] == FilledHistoryMessage(u[j], reps))
              && (forall j :: 0 <= j < |u| && CorePrompts.NoParen(u[j].text) ==> out[nb + j] == HistoryMessages(u)[j])
  {
    BuiltFrom(base, finalized, current, enabled, rephrase, knowledge, closest, image, now, nick);
    var r := BuildFullPrompt(base, finalized, current, enabled, rephrase, knowledge, closest, image, now, nick);
    if r.Ok? {
      var k := KnowledgeStep(enabled, current.text, rephrase, knowledge, closest).value;
      FilledHistory(base.messages, UsableHistory(finalized, current), ImageMessage(image.description.value), Fills(now, nick, k.1, k.2));
    }
  }

  /** In a built prompt a non-empty image description is the last
      message, filled in. */
  lemma FullPromptImageLast(base: Prompt, finalized: seq<Message>, current: Message,
                           enabled: bool, rephrase: Result<Option<string>>, knowledge: Result<Option<string>>,
                           closest: Option<seq<string>>, image: ImageOutcome, now: string, nick: string)
    ensures var r := BuildFullPrompt(base, finalized, current, enabled, rephrase, knowledge, closest, image, now, nick);
            var hasImage := image.description.Ok? && image.description.value.Some? && image.description.value.value != [];
            r.Ok? && hasImage ==>
              var k := KnowledgeStep(enabled, current.text, rephrase, knowledge, closest).value;
              var out := r.value.messages;
              |out| > 0 && out[|out| - 1] == UserMsg(CorePrompts.ReplaceChain(image.description.value.value, Fills(now, nick, k.1, k.2)), None)
  {
    BuiltFrom(base, finalized, current, enabled, rephrase, knowledge, closest, image, now, nick);
    var r := BuildFullPrompt(base, finalized, current, enabled, rephrase, knowledge, closest, image, now, nick);
    if r.Ok? {
      var k := KnowledgeStep(enabled, current.text, rephrase, knowledge, closest).value;
      FilledImage(base.messages + HistoryMessages(UsableHistory(finalized, current)), image.description.value, Fills(now, nick, k.1, k.2));
    }
  }

  /** The profile's messages are filled in one by one, in their places. */
  lemma FilledBase(base: seq<Msg>, more: seq<Msg>, reps: seq<(string, string)>)
    requires CorePrompts.MessagesReplaced(base + more, reps).Ok?
    ensures var out := CorePrompts.MessagesReplaced(base + more, reps).value;
            |out| == |base| + |more|
            && forall j :: 0 <= j < |base| ==>
                 CorePrompts.MessageReplaced(base[j], reps).Ok? && out[j] == CorePrompts.MessageReplaced(base[j], reps).value
  {
    CorePrompts.MessagesReplacedEach(base + more, reps);
    assert forall j :: 0 <= j < |base| ==> (base + more)[j] == base[j];
  }

  /** The history messages follow the profile's, in history order, each
      with its text through the chain; a text without a parenthesis is
      kept. */
  lemma FilledHistory(base: seq<Msg>, u: seq<Message>, extra: seq<Msg>, reps: seq<(string, string)>)
    requires CorePrompts.MessagesReplaced(base + HistoryMessages(u) + extra, reps).Ok?
    ensures var out := CorePrompts.MessagesReplaced(base + HistoryMessages(u) + extra, reps).value;
            |out| == |base| + |u| + |extra|
            && (forall j :: 0 <= j < |u| ==> out[|base| + j] == FilledHistoryMessage(u[j], reps))
            && (forall j :: 0 <= j < |u| && CorePrompts.NoParen(u[j].text) ==> out[|base| + j] == HistoryMessages(u)[j])
  {
    var hist := HistoryMessages(u);
    var msgs := base + hist + extra;
    CorePrompts.MessagesReplacedEach(msgs, reps);
    forall j | 0 <= j < |u|
      ensures CorePrompts.MessageReplaced(msgs[|base| + j], reps) == Ok(FilledHistoryMessage(u[j], reps))
      ensures CorePrompts.NoParen(u[j].text) ==> FilledHistoryMessage(u[j], reps) == hist[j]
    {
      assert msgs[|base| + j] == hist[j];
      if u[j].isBot {
        TextMessageFilled("assistant", u[j].text, reps);
      } else {
        TextMessageFilled("user", u[j].text, reps);
      }
      if CorePrompts.NoParen(u[j].text) {
        CorePrompts.ChainNoParen(u[j].text, reps);
      }
    }
  }

  /** A non-empty image description is the last message, filled in. */
  lemma FilledImage(before: seq<Msg>, desc: Option<string>, reps: seq<(string, string)>)
    requires CorePrompts.MessagesReplaced(before + ImageMessage(desc), reps).Ok?
    ensures var out := CorePrompts.MessagesReplaced(before + ImageMessage(desc), reps).value;
            desc.Some? && desc.value != [] ==>
              |out| == |before| + 1 && out[|out| - 1] == UserMsg(CorePrompts.ReplaceChain(desc.value, reps), None)
  {
    var msgs := before + ImageMessage(desc);
    CorePrompts.MessagesReplacedEach(msgs, reps);
    if desc.Some? && desc.value != [] {
      assert msgs[|msgs| - 1] == UserMsg(desc.value, None);
      TextMessageFilled("user", desc.value, reps);
    }
  }

  /** A role-and-content message keeps its role and has its content filled
      in. */
  lemma TextMessageFilled(role: string, text: string, reps: seq<(string, string)>)
    requires role == "user" || role == "assistant"
    ensures CorePrompts.MessageReplaced([Entry("role", Str(role)), Entry("content", Str(text))], reps)
              == Ok([Entry("role", Str(role)), Entry("content", Str(CorePrompts.ReplaceChain(text, reps)))])
  {
    var m := [Entry("role", Str(role)), Entry("content", Str(text))];
    CorePrompts.StringFieldsReplaced(m, reps);
    assert CorePrompts.NoParen(role) by {
      if role == "user" {
        assert forall c :: c in role ==> c != '(';
      } else {
        assert forall c :: c in role ==> c != '(';
      }
    }
    CorePrompts.ChainNoParen(role, reps);
    var out := seq(|m|, k requires 0 <= k < |m| => Entry(m[k].key, Str(CorePrompts.ReplaceChain(m[k].value.s, reps))));
    assert out[0] == Entry("role", Str(role));
    assert out == [Entry("role", Str(role)), Entry("content", Str(CorePrompts.ReplaceChain(text, reps)))];
  }

  /** A placeholder of the four, between texts without parentheses, in a
      message of string fields, gets its value when no value holds a
      parenthesis; the other fields keep their names. */
  lemma PlaceholderFilled(m: Msg, f: nat, before: string, after: string, i: nat,
                          now: string, nick: string, knowledgeText: string, oldMemories: string)
    requires f < |m| && forall q :: 0 <= q < |m| ==> m[q].value.Str?
    requires i < 4 && m[f].value == Str(before + Formatted(Fills(now, nick, knowledgeText, oldMemories)[i].0) + after)
    requires CorePrompts.NoParen(before) && CorePrompts.NoParen(after)
    requires CorePrompts.NoParen(now) && CorePrompts.NoParen(nick)
    requires CorePrompts.NoParen(knowledgeText) && CorePrompts.NoParen(oldMemories)
    ensures var reps := Fills(now, nick, knowledgeText, oldMemories);
            var out := CorePrompts.MessageReplaced(m, reps);
            out.Ok? && Keys(out.value) == Keys(m)
            && out.value[f] == Entry(m[f].key, Str(before + reps[i].1 + after))
  {
    var reps := Fills(now, nick, knowledgeText, oldMemories);
    assert CorePrompts.ReplaceChain(m[f].value.s, reps) == before + reps[i].1 + after by {
      FillsWellFormed(now, nick, knowledgeText, oldMemories);
      assert forall j :: 0 <= j < |reps| ==> CorePrompts.NoParen(reps[j].1);
      CorePrompts.ChainFillsIn(before, after, reps, i);
    }
    CorePrompts.StringFieldsReplaced(m, reps);
    CorePrompts.MessageReplacedShape(m, reps);
  }

  /** The four names are distinct placeholder names. */
  lemma FillsWellFormed(now: string, nick: string, knowledgeText: string, oldMemories: string)
    ensures var reps := Fills(now, nick, knowledgeText, oldMemories);
            (forall j :: 0 <= j < |reps| ==> CorePrompts.IsName(reps[j].0))
            && forall i, j :: 0 <= i < j < |reps| ==> reps[i].0 != reps[j].0
  {
    assert CorePrompts.IsName("now") by { assert forall c :: c in "now" ==> IsWordChar(c); }
    assert CorePrompts.IsName("nick") by { assert forall c :: c in "nick" ==> IsWordChar(c); }
    assert CorePrompts.IsName("knowledge") by { assert forall c :: c in "knowledge" ==> IsWordChar(c); }
    assert CorePrompts.IsName("old_memories") by { assert forall c :: c in "old_memories" ==> IsWordChar(c); }
  }

  const NSFW_WARNING := ":x: I can't see attachments in NSFW channels!"
  const VIEW_INTRO := "Describe the image in detail, including a sufficient answer to the following query: "
  const MULTIPLE_ATTACHMENTS := [React("\U{274C}"), React("1\U{FE0F}\U{20E3}"), React("\U{1F5BC}\U{FE0F}")]

  /** `_describe_image_if_present`. The user query it is given is not used:
      the request quotes the message content. An NSFW text channel gets a
      warning reply, but the description still goes ahead. */
  function DescribeImage(attachments: seq<Attachment>, nsfwTextChannel: bool, content: string,
                         view: Prompt -> Result<string>): ImageOutcome
  {
    if |attachments| == 0 then ImageOutcome([], Ok(None))
    else if |attachments| > 1 then ImageOutcome(MULTIPLE_ATTACHMENTS, Ok(None))
    else
      var warned := if nsfwTextChannel then [Reply(NSFW_WARNING)] else [];
      var a := attachments[0];
      if !IsImage(a) then ImageOutcome(warned, Ok(None))
      else
        match view(ViewRequest(VIEW_INTRO, content, a.url))
        case Err(e) => ImageOutcome(warned + [React(EYES)], Err(e))
        case Ok(d) => ImageOutcome(warned + [React(EYES)], Ok(Some(d)))
  }

  /** A description is requested exactly for a single image attachment;
      then the eyes reaction is the last effect, after the NSFW warning if
      any. Zero attachments do nothing; several get the three reactions. */
  lemma DescribeImageBranches(attachments: seq<Attachment>, nsfwTextChannel: bool, content: string,
                              view: Prompt -> Result<string>)
    ensures var o := DescribeImage(attachments, nsfwTextChannel, content, view);
            (o.description.Err? || o.description.value.Some?) <==> |attachments| == 1 && IsImage(attachments[0])
    ensures var o := DescribeImage(attachments, nsfwTextChannel, content, view);
            |attachments| == 1 && IsImage(attachments[0]) ==>
              o.effects == (if nsfwTextChannel then [Reply(NSFW_WARNING)] else []) + [React(EYES)]
              && o.description == (match view(ViewRequest(VIEW_INTRO, content, attachments[0].url))
                                   case Err(e) => Err(e)
                                   case Ok(d) => Ok(Some(d)))
    ensures |attachments| == 0 ==> DescribeImage(attachments, nsfwTextChannel, content, view) == ImageOutcome([], Ok(None))
    ensures |attachments| > 1 ==>
              DescribeImage(attachments, nsfwTextChannel, content, view) == ImageOutcome(MULTIPLE_ATTACHMENTS, Ok(None))
  {
  }
}
