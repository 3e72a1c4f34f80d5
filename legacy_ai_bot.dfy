/** `DiscordBotResponse` of the older revision (bot_workflow/ai_bot.py): the
    verbose log, the fallback cascade of `create_or_fallback` (which, unlike
    the current revision, hands the completion to the rewrite step), and
    the text given to the info-select and rephrase prompts. Prompts are
    filled in with the recursive `Prompt.replace` of ai_apis/types.py. The
    LLM calls are oracle arguments. */
module LegacyAiBot {
  import opened Base
  import opened Text
  import opened Prompts
  import ApiPrompts
  import opened BotSteps

  /** `ResponseLogger`: the text of the verbose log. */
  class ResponseLogger {
    var text: string

    constructor ()
      ensures text == ""
    {
      text := "";
    }

    /** `verbose`: one entry appended; what was logged before is kept. */
    method Verbose(time: string, entry: string, category: Option<string>)
      modifies this
      ensures text == old(text) + LogEntry(time, entry, category)
    {
      text := text + LogEntry(time, entry, category);
    }
  }

  /** The request of every cascade attempt: temperature 0, at most 2000
      tokens, no logit bias. */
  function CascadeParams(name: string): RequestParams
  {
    RequestParams(name, 0.0, 2000, [])
  }

  /** `personality_rewrite`: the rewrite prompt with "message" replaced by
      the completion, sent to the rewrite model. */
  function PersonalityRewrite(rewritePrompt: Prompt, completion: string, llm: Prompt -> Result<string>): Result<string>
  {
    match ApiPrompts.Replaced(rewritePrompt, [("message", completion)])
    case Err(e) => Err(e)
    case Ok(p) => llm(p)
  }

  /** One attempt of `create_or_fallback`: the completion, its rewrite, then
      the regex replacements; any exception fails the attempt. */
  function AttemptModel(prompt: Prompt, name: string, rewritePrompt: Prompt, regex: seq<(string, string)>,
                        send: (Prompt, RequestParams) -> Result<string>, rewriteLlm: Prompt -> Result<string>,
                        sub: (string, string, string) -> Option<string>): Result<string>
  {
    match send(prompt, CascadeParams(name))
    case Err(e) => Err(e)
    case Ok(completion) =>
      match PersonalityRewrite(rewritePrompt, completion, rewriteLlm)
      case Err(e) => Err(e)
      case Ok(t) => ApplyRegexReplacements(t, regex, sub)
  }

  function Attempt(prompt: Prompt, rewritePrompt: Prompt, regex: seq<(string, string)>,
                   send: (Prompt, RequestParams) -> Result<string>, rewriteLlm: Prompt -> Result<string>,
                   sub: (string, string, string) -> Option<string>): string -> Result<string>
  {
    name => AttemptModel(prompt, name, rewritePrompt, regex, send, rewriteLlm, sub)
  }

  /** `create_or_fallback`: the prompt is built once; the models are tried
      in order until one attempt returns; `tried` lists the models tried. */
  method CreateOrFallback(prompt: Result<Prompt>, modelNames: seq<string>, rewritePrompt: Prompt,
                          regex: seq<(string, string)>, send: (Prompt, RequestParams) -> Result<string>,
                          rewriteLlm: Prompt -> Result<string>, sub: (string, string, string) -> Option<string>)
    returns (r: Result<string>, tried: seq<string>)
    ensures prompt.Err? ==> r == Err(prompt.error) && tried == []
    ensures prompt.Ok? ==>
              var att := Attempt(prompt.value, rewritePrompt, regex, send, rewriteLlm, sub);
              r == Cascade(modelNames, att) && tried == Tried(modelNames, att)
  {
    if prompt.Err? {
      return Err(prompt.error), [];
    }
    var p := prompt.value;
    var att := Attempt(p, rewritePrompt, regex, send, rewriteLlm, sub);
    tried := [];
    for i := 0 to |modelNames|
      invariant Cascade(modelNames, att) == Cascade(modelNames[i..], att)
      invariant Tried(modelNames, att) == modelNames[..i] + Tried(modelNames[i..], att)
      invariant tried == modelNames[..i]
    {
      tried := tried + [modelNames[i]];
      var out := att(modelNames[i]);
      assert modelNames[..i + 1] == modelNames[..i] + [modelNames[i]];
      if out.Ok? {
        assert Cascade(modelNames, att) == out && Tried(modelNames, att) == tried by {
          CascadeStep(modelNames, i, att);
        }
        return out, tried;
      }
      ghost var rest := Tried(modelNames[i + 1..], att);
      assert Cascade(modelNames, att) == Cascade(modelNames[i + 1..], att)
             && Tried(modelNames[i..], att) == [modelNames[i]] + rest by {
        CascadeStep(modelNames, i, att);
      }
      assert modelNames[..i] + ([modelNames[i]] + rest) == modelNames[..i + 1] + rest;
    }
    assert modelNames[|modelNames|..] == [];
    assert modelNames[..|modelNames|] == modelNames;
    return Err(RuntimeError(ALL_FAILED)), tried;
  }

  /** A message whose values are strings without a backslash, every
      "((name))" in them being "message". */
  predicate PlainRewriteMessage(m: Msg)
  {
    forall k :: 0 <= k < |m| ==>
      m[k].value.Str? && StrCovered(m[k].value.s, {"message"})
      && forall j :: 0 <= j < |m[k].value.s| ==> m[k].value.s[j] != '\\'
  }

  /** The completion parses as a `re` replacement template. */
  predicate ValidCompletion(c: string)
  {
    ApiPrompts.TemplateOk(("message", c))
  }

  /** Some message from index `i` on has an entry, so some string goes
      through `re.sub`. */
  predicate HasEntries(ms: seq<Msg>, i: nat)
  {
    exists j :: i <= j < |ms| && ms[j] != []
  }

  /** Because the escaped pattern never matches, a rewrite prompt of plain
      messages comes back from `replace` unchanged when the completion is a
      valid template (as every completion without a backslash is); an
      invalid one raises as soon as a string is substituted. The rewrite
      model therefore sees the same request whatever the valid completion
      was. */
  lemma RewriteNeverSeesCompletion(rewritePrompt: Prompt, c1: string, c2: string, llm: Prompt -> Result<string>)
    requires forall i :: 0 <= i < |rewritePrompt.messages| ==> PlainRewriteMessage(rewritePrompt.messages[i])
    ensures ApiPrompts.Replaced(rewritePrompt, [("message", c1)])
              == if ValidCompletion(c1) || !HasEntries(rewritePrompt.messages, 0) then Ok(rewritePrompt)
                 else Err(ApiPrompts.ExpandTemplate(c1, ApiPrompts.EscapedFormat("message")).error)
    ensures (forall k :: 0 <= k < |c1| ==> c1[k] != '\\') ==> ValidCompletion(c1)
    ensures (ValidCompletion(c1) || !HasEntries(rewritePrompt.messages, 0))
            && (ValidCompletion(c2) || !HasEntries(rewritePrompt.messages, 0))
            ==> PersonalityRewrite(rewritePrompt, c1, llm) == PersonalityRewrite(rewritePrompt, c2, llm)
  {
    PlainMessagesUnchanged(rewritePrompt.messages, 0, c1);
    PlainMessagesUnchanged(rewritePrompt.messages, 0, c2);
    assert rewritePrompt.messages[0..] == rewritePrompt.messages;
    if forall k :: 0 <= k < |c1| ==> c1[k] != '\\' {
      ApiPrompts.LiteralTemplate(c1, ApiPrompts.EscapedFormat("message"));
    }
  }

  lemma {:induction false} PlainMessagesUnchanged(ms: seq<Msg>, i: nat, completion: string)
    requires i <= |ms| && forall j :: 0 <= j < |ms| ==> PlainRewriteMessage(ms[j])
    ensures ApiPrompts.ReplaceMessages(ms, i, [("message", completion)])
              == if ValidCompletion(completion) || !HasEntries(ms, i) then Ok(ms[i..])
                 else Err(ApiPrompts.ExpandTemplate(completion, ApiPrompts.EscapedFormat("message")).error)
    decreases |ms| - i
  {
    if i < |ms| {
      PlainEntriesUnchanged(ms[i], 0, completion);
      assert ms[i][0..] == ms[i];
      if ValidCompletion(completion) || ms[i] == [] {
        PlainMessagesUnchanged(ms, i + 1, completion);
        assert ms[i..] == [ms[i]] + ms[i + 1..];
        if ms[i] == [] {
          assert HasEntries(ms, i) ==> HasEntries(ms, i + 1);
        }
      } else {
        assert HasEntries(ms, i);
      }
    }
  }

  lemma {:induction false} PlainEntriesUnchanged(m: Msg, i: nat, completion: string)
    requires i <= |m| && PlainRewriteMessage(m)
    ensures ApiPrompts.ReplaceEntries(m, i, [("message", completion)])
              == if i == |m| || ValidCompletion(completion) then Ok(m[i..])
                 else Err(ApiPrompts.ExpandTemplate(completion, ApiPrompts.EscapedFormat("message")).error)
    decreases |m| - i
  {
    if i < |m| {
      var s := m[i].value.s;
      var reps := [("message", completion)];
      assert KeysOf(reps) == {"message"};
      assert reps[0] == ("message", completion) && reps[1..] == [];
      if ValidCompletion(completion) {
        ApiPrompts.SubstituteFails(s, reps);
        ApiPrompts.EscapedNeverFires(s, reps);
        PlainEntriesUnchanged(m, i + 1, completion);
        assert m[i..] == [Entry(m[i].key, Str(s))] + m[i + 1..];
      }
    }
  }

  /** `info_select`: nothing retrieved gives None without a request;
      otherwise the "user_query" placeholder of the info-select prompt is
      given the retrieved facts, each after "INFO:n", then the query. */
  function InfoSelect(hits: seq<string>, query: string, selectPrompt: Prompt, llm: Prompt -> Result<string>): Result<Option<string>>
  {
    match InfoQuery("INFO:n", hits, query)
    case None => Ok(None)
    case Some(q) =>
      match ApiPrompts.Replaced(selectPrompt, [("user_query", q)])
      case Err(e) => Err(e)
      case Ok(p) =>
        match llm(p)
        case Err(e) => Err(e)
        case Ok(t) => Ok(Some(t))
  }

  /** With no facts retrieved the step answers None whatever the model
      would say; with some, the text handed to the prompt holds every fact
      after "INFO:n" in retrieval order and ends with the query. */
  lemma InfoSelectQuery(hits: seq<string>, query: string, selectPrompt: Prompt, llm: Prompt -> Result<string>)
    ensures hits == [] <==> InfoSelect(hits, query, selectPrompt, llm) == Ok(None)
    ensures hits != [] ==>
              var q := InfoQuery("INFO:n", hits, query).value;
              EndsWith(q, "QUERY: " + query)
              && forall i :: 0 <= i < |hits| ==> OccursAt(q, "INFO:n" + hits[i], |InfoText("INFO:n", hits[..i])|)
  {
    if hits != [] {
      var q := InfoQuery("INFO:n", hits, query).value;
      var t := InfoText("INFO:n", hits);
      assert q == t + ("QUERY: " + query);
      assert q[|q| - |"QUERY: " + query|..] == "QUERY: " + query;
      forall i | 0 <= i < |hits|
        ensures OccursAt(q, "INFO:n" + hits[i], |InfoText("INFO:n", hits[..i])|)
      {
        InfoTextHolds("INFO:n", hits, i);
        var w := "INFO:n" + hits[i];
        var o := |InfoText("INFO:n", hits[..i])|;
        assert q[o..o + |w|] == t[o..o + |w|];
      }
    }
  }

  /** `user_query_rephrase`: "user_query" gets the remembered texts joined
      by newlines and "last_user" the nick of the last one. */
  function UserQueryRephrase(history: seq<Message>, rephrasePrompt: Prompt, llm: Prompt -> Result<string>): Result<string>
  {
    match RephraseInputs(history)
    case Err(e) => Err(e)
    case Ok(inputs) =>
      match ApiPrompts.Replaced(rephrasePrompt, [("user_query", inputs.0), ("last_user", inputs.1)])
      case Err(e) => Err(e)
      case Ok(p) => llm(p)
  }

  /** An empty history raises IndexError before any request. */
  lemma RephraseNeedsHistory(rephrasePrompt: Prompt, llm: Prompt -> Result<string>)
    ensures UserQueryRephrase([], rephrasePrompt, llm) == Err(IndexError)
  {
  }
}
