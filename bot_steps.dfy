/** Steps the three bot revisions (core/bot_workflow/ai_bot.py,
    bot_workflow/ai_bot.py, kami_chan/kami_chan.py) share in shape: the
    fallback cascade over model names, the verbose log entry, the
    `re.sub` chain over configured replacements, the rephrase inputs taken
    from the recent history, the retrieval query text, and the request sent
    to describe an attached image. */
module BotSteps {
  import opened Base
  import opened Text
  import opened Prompts

  /** `LLMRequestParams` / `LLMRequest` without the prompt: the temperature
      is a real number the model only copies. */
  datatype RequestParams = RequestParams(modelName: string, temperature: real, maxTokens: int, logitBias: seq<(string, int)>)

  const ALL_FAILED := "Could not generate response and all fallbacks failed"

  /** The outcome of trying `names` in order: the first success, or the
      RuntimeError raised once every name has failed. */
  function Cascade(names: seq<string>, attempt: string -> Result<string>): Result<string>
  {
    if names == [] then Err(RuntimeError(ALL_FAILED))
    else if attempt(names[0]).Ok? then attempt(names[0])
    else Cascade(names[1..], attempt)
  }

  /** The names actually tried: up to and including the first success. */
  function Tried(names: seq<string>, attempt: string -> Result<string>): seq<string>
  {
    if names == [] then []
    else if attempt(names[0]).Ok? then [names[0]]
    else [names[0]] + Tried(names[1..], attempt)
  }

  /** The cascade succeeds exactly when some name succeeds; then its result
      is that of the last name tried, every earlier name failed and no
      later one was tried. When it fails, every name was tried and failed. */
  lemma {:induction false} CascadeFirstSuccess(names: seq<string>, attempt: string -> Result<string>)
    ensures Cascade(names, attempt).Ok? <==> exists i :: 0 <= i < |names| && attempt(names[i]).Ok?
    ensures var t := Tried(names, attempt);
            Cascade(names, attempt).Ok? ==>
              1 <= |t| <= |names| && t == names[..|t|]
              && Cascade(names, attempt) == attempt(t[|t| - 1])
              && forall j :: 0 <= j < |t| - 1 ==> attempt(t[j]).Err?
    ensures Cascade(names, attempt).Err? ==>
              Cascade(names, attempt) == Err(RuntimeError(ALL_FAILED))
              && Tried(names, attempt) == names
              && forall i :: 0 <= i < |names| ==> attempt(names[i]).Err?
  {
    if names != [] && attempt(names[0]).Err? {
      CascadeFirstSuccess(names[1..], attempt);
      var t := Tried(names[1..], attempt);
      if Cascade(names, attempt).Ok? {
        assert [names[0]] + t == names[..|t| + 1];
      } else {
        forall i | 0 <= i < |names|
          ensures attempt(names[i]).Err?
        {
          if i > 0 {
            assert names[i] == names[1..][i - 1];
          }
        }
        assert [names[0]] + names[1..] == names;
      }
      if exists i :: 0 <= i < |names| && attempt(names[i]).Ok? {
        var i :| 0 <= i < |names| && attempt(names[i]).Ok?;
        assert names[i] == names[1..][i - 1];
      }
    }
  }

  /** One step of the cascade from position `i`. */
  lemma CascadeStep(names: seq<string>, i: nat, attempt: string -> Result<string>)
    requires i < |names|
    ensures Cascade(names[i..], attempt)
            == if attempt(names[i]).Ok? then attempt(names[i]) else Cascade(names[i + 1..], attempt)
    ensures Tried(names[i..], attempt)
            == if attempt(names[i]).Ok? then [names[i]] else [names[i]] + Tried(names[i + 1..], attempt)
  {
    assert names[i..][0] == names[i] && names[i..][1..] == names[i + 1..];
  }

  /** One `verbose` / `log_verbose` entry. A category that is None or the
      empty string counts as no category. */
  function LogEntry(time: string, text: string, category: Option<string>): string
  {
    if category.Some? && category.value != [] then
      "[" + time + "] --- " + category.value + " ---\n" + text + "\n"
    else
      "[" + time + "] " + text + "\n"
  }

  /** Every entry starts with the bracketed time and ends with the text and
      a newline; with a category the category's header line comes between,
      without one nothing does. */
  lemma LogEntryShape(time: string, text: string, category: Option<string>)
    ensures var e := LogEntry(time, text, category);
            StartsWith(e, "[" + time + "] ") && EndsWith(e, text + "\n")
    ensures category.Some? && category.value != [] ==>
              StartsWith(LogEntry(time, text, category), "[" + time + "] --- " + category.value + " ---\n")
    ensures category.None? || category.value == [] ==>
              |LogEntry(time, text, category)| == |time| + |text| + 4
  {
    var e := LogEntry(time, text, category);
    var head := "[" + time + "] ";
    assert e[..|head|] == head;
    assert e[|e| - |text + "\n"|..] == text + "\n";
  }

  /** The chain `for target, replacement in regex_replacements.items():
      s = re.sub(target, replacement, s)`. Regular expressions are not
      modelled: `sub(target, replacement, s)` is the result of `re.sub`, or
      None when the pattern does not compile. */
  function ApplyRegexReplacements(s: string, replacements: seq<(string, string)>,
                                  sub: (string, string, string) -> Option<string>): Result<string>
    decreases |replacements|
  {
    if replacements == [] then Ok(s)
    else
      match sub(replacements[0].0, replacements[0].1, s)
      case None => Err(PatternError)
      case Some(t) => ApplyRegexReplacements(t, replacements[1..], sub)
  }

  /** The loop that reassigns the text once per replacement. */
  method RegexReplacementsLoop(s: string, replacements: seq<(string, string)>,
                               sub: (string, string, string) -> Option<string>) returns (r: Result<string>)
    ensures r == ApplyRegexReplacements(s, replacements, sub)
  {
    var current := s;
    for j := 0 to |replacements|
      invariant ApplyRegexReplacements(s, replacements, sub) == ApplyRegexReplacements(current, replacements[j..], sub)
    {
      assert replacements[j..][1..] == replacements[j + 1..];
      var next := sub(replacements[j].0, replacements[j].1, current);
      if next.None? {
        return Err(PatternError);
      }
      current := next.value;
    }
    assert replacements[|replacements|..] == [];
    return Ok(current);
  }

  /** The replacements are applied one after another: the chain over
      `a + b` is the chain over `b` applied to the result over `a`. */
  lemma {:induction false} RegexReplacementsCompose(s: string, a: seq<(string, string)>, b: seq<(string, string)>,
                                                     sub: (string, string, string) -> Option<string>)
    ensures ApplyRegexReplacements(s, a + b, sub)
            == match ApplyRegexReplacements(s, a, sub)
               case Err(e) => Err(e)
               case Ok(t) => ApplyRegexReplacements(t, b, sub)
    decreases |a|
  {
    if a == [] {
      assert a + b == b;
    } else {
      assert (a + b)[0] == a[0] && (a + b)[1..] == a[1..] + b;
      match sub(a[0].0, a[0].1, s)
      case None =>
      case Some(t) => RegexReplacementsCompose(t, a[1..], b, sub);
    }
  }

  /** The inputs of the rephrase step: the texts of the recent history joined
      by newlines, and the nick of its last message (`[-1]` raises
      IndexError on an empty history). */
  function RephraseInputs(history: seq<Message>): Result<(string, string)>
  {
    if history == [] then Err(IndexError)
    else Ok((Join(Texts(history), "\n"), history[|history| - 1].nick))
  }

  function Texts(history: seq<Message>): seq<string>
  {
    seq(|history|, i requires 0 <= i < |history| => history[i].text)
  }

  /** When no remembered text holds a newline, the joined query splits back
      into exactly the remembered texts. */
  lemma RephraseQuerySplits(history: seq<Message>)
    requires forall i, k :: 0 <= i < |history| && 0 <= k < |history[i].text| ==> history[i].text[k] != '\n'
    ensures RephraseInputs(history).Ok? <==> history != []
    ensures RephraseInputs(history).Ok? ==>
              SplitOn(RephraseInputs(history).value.0, "\n") == Texts(history)
              && RephraseInputs(history).value.1 == history[|history| - 1].nick
  {
    if history != [] {
      SplitOnJoin(Texts(history), '\n');
    }
  }

  /** The retrieved facts, each after `prefix`, in retrieval order. */
  function InfoText(prefix: string, hits: seq<string>): string
  {
    if hits == [] then "" else InfoText(prefix, hits[..|hits| - 1]) + prefix + hits[|hits| - 1]
  }

  /** The query text of the retrieval step: None when nothing was retrieved
      (no request is made), otherwise every fact after its prefix, then
      "QUERY: " and the query. */
  function InfoQuery(prefix: string, hits: seq<string>, query: string): Option<string>
  {
    if hits == [] then None else Some(InfoText(prefix, hits) + "QUERY: " + query)
  }

  /** The loop that builds the query text. */
  method BuildInfoQuery(prefix: string, hits: seq<string>, query: string) returns (r: Option<string>)
    ensures r == InfoQuery(prefix, hits, query)
  {
    if |hits| == 0 {
      return None;
    }
    var text := "";
    for i := 0 to |hits|
      invariant text == InfoText(prefix, hits[..i])
    {
      assert hits[..i + 1][..i] == hits[..i];
      text := text + prefix + hits[i];
    }
    assert hits[..|hits|] == hits;
    text := text + "QUERY: " + query;
    return Some(text);
  }

  /** Each retrieved fact appears after its prefix, in order: the i-th one
      starts right after the text of the first i facts. */
  lemma {:induction false} InfoTextHolds(prefix: string, hits: seq<string>, i: nat)
    requires i < |hits|
    ensures OccursAt(InfoText(prefix, hits), prefix + hits[i], |InfoText(prefix, hits[..i])|)
    decreases |hits|
  {
    var n := |hits|;
    var before := InfoText(prefix, hits[..n - 1]);
    if i == n - 1 {
      assert hits[..i] == hits[..n - 1];
      assert InfoText(prefix, hits) == before + (prefix + hits[i]);
    } else {
      InfoTextHolds(prefix, hits[..n - 1], i);
      assert hits[..n - 1][i] == hits[i];
      assert hits[..n - 1][..i] == hits[..i];
      var t := InfoText(prefix, hits[..i]);
      var w := prefix + hits[i];
      assert before[|t|..|t| + |w|] == w;
      assert InfoText(prefix, hits)[|t|..|t| + |w|] == before[|t|..|t| + |w|];
    }
  }

  /** A file attached to the triggering message. */
  datatype Attachment = Attachment(contentType: Option<string>, url: string)

  /** What a step does on Discord besides returning a value. */
  datatype Effect = React(emoji: string) | Reply(text: string)

  /** The Discord actions of an image-description step and its result:
      the description, None when there is nothing to describe, or the
      error that escaped. */
  datatype ImageOutcome = ImageOutcome(effects: seq<Effect>, description: Result<Option<string>>)

  const EYES := "\U{1F440}"

  /** The one-message request asking a vision model to describe `url`; the
      query quoted is the message content. */
  function ViewRequest(intro: string, content: string, url: string): Prompt
  {
    Prompt([UserMsg(intro + "'" + content + "'" + "If the query is empty, just describe the image. ", Some(url))])
  }

  /** `attachment.content_type.startswith("image/")` */
  predicate IsImage(a: Attachment)
  {
    a.contentType.Some? && StartsWith(a.contentType.value, "image/")
  }

  /** A user mentioned in a message. */
  datatype Mention = Mention(id: int, name: string)

  /** How Discord writes a mention in message content. */
  function MentionTag(id: int): string
  {
    "<@" + IntToString(id) + ">"
  }

  /** The loop of `sanitize_msg`: each mention's tag replaced by "@name", in
      mention order. */
  function ReplaceMentions(content: string, mentions: seq<Mention>): string
    decreases |mentions|
  {
    if mentions == [] then content
    else ReplaceMentions(Replace(content, MentionTag(mentions[0].id), "@" + mentions[0].name), mentions[1..])
  }

  /** `sanitize_str`: a leading mention of the bot is removed once. */
  function SanitizeStr(s: string, botId: int): string
  {
    var tag := MentionTag(botId);
    if StartsWith(s, tag) then ReplaceFirst(s, tag, "") else s
  }

  /** `sanitize_msg` */
  method SanitizeMsg(content: string, mentions: seq<Mention>, botId: int) returns (r: string)
    ensures r == SanitizeStr(ReplaceMentions(content, mentions), botId)
  {
    var newContent := content;
    for j := 0 to |mentions|
      invariant ReplaceMentions(content, mentions) == ReplaceMentions(newContent, mentions[j..])
    {
      assert mentions[j..][1..] == mentions[j + 1..];
      newContent := Replace(newContent, MentionTag(mentions[j].id), "@" + mentions[j].name);
    }
    assert mentions[|mentions|..] == [];
    r := SanitizeStr(newContent, botId);
  }

  /** `sanitize_str` drops exactly the leading bot mention when there is
      one, and changes nothing otherwise. */
  lemma SanitizeStrDropsLeadingMention(s: string, botId: int)
    ensures StartsWith(s, MentionTag(botId)) ==> SanitizeStr(s, botId) == s[|MentionTag(botId)|..]
    ensures !StartsWith(s, MentionTag(botId)) ==> SanitizeStr(s, botId) == s
  {
    if StartsWith(s, MentionTag(botId)) {
      ReplaceFirstOfPrefix(s, MentionTag(botId));
    }
  }

  /** Content without a '<' holds no mention tag: sanitizing leaves it as
      it is. */
  lemma {:induction false} MentionFreeUnchanged(content: string, mentions: seq<Mention>, botId: int)
    requires forall k :: 0 <= k < |content| ==> content[k] != '<'
    ensures ReplaceMentions(content, mentions) == content
    ensures SanitizeStr(content, botId) == content
    decreases |mentions|
  {
    if mentions != [] {
      NoFirstCharAbsent(content, MentionTag(mentions[0].id), "@" + mentions[0].name);
      MentionFreeUnchanged(content, mentions[1..], botId);
    }
    var tag := MentionTag(botId);
    if |tag| <= |content| {
      assert content[..|tag|][0] != tag[0];
    }
  }

  /** The emoji picked at random for the +1 token: one of these. */
  const PLUS_EMOJIS := {"<:paperUwU:1018366709658308688>", "<:Paperyis:1022991557978238976>"}
  const MINUS_EMOJI := "<a:notlikepaper:1165467302578360401>"
  const ZERO_EMOJI := "<:paperOhhh:1018366673423695872>"

  /** The three `.replace` calls of the rewrite post-processing. `plus` is
      the random pick for the +1 token, made once per call. */
  function SubstituteTokens(s: string, plusToken: string, minusToken: string, zeroToken: string, plus: string): string
  {
    Replace(Replace(Replace(s, plusToken, plus), minusToken, MINUS_EMOJI), zeroToken, ZERO_EMOJI)
  }
}
