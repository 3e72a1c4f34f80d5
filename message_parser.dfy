/** Admission and flag parsing of an incoming chat message
    (core/bot_workflow/discord_message_parser.py). Every message first
    registers a request for its author; denial rules run in a fixed order
    (no ping, rate limited, too long), and only an admitted message has its
    "--l" (view logs) and "--v" (verbose reply) flags recognised and
    stripped. Whether the bot is mentioned is a parameter. */
module MessageParser {
  import opened Base
  import opened Text
  import opened RateLimits

  const MAX_CHARACTERS: int := 1024

  datatype DenialReason = RateLimited | TooLong | DidNotPing

  datatype SpecialFunctionFlag = ViewMessageLogs | RequestVerboseReply

  datatype UserMessageContext = UserMessageContext(
    rawContent: string,
    sanitizedContent: string,
    denied: bool,
    denialReason: Option<DenialReason>,
    calledFunctions: seq<SpecialFunctionFlag>)

  /** The context `parse_message` builds for a message with content `raw`,
      given whether it mentions the bot and whether the author is limited
      after registering this request. */
  function Classify(raw: string, mentioned: bool, limited: bool): UserMessageContext
  {
    var reason :=
      if limited then Some(RateLimited)
      else if !mentioned then Some(DidNotPing)
      else if |raw| > MAX_CHARACTERS then Some(TooLong)
      else None;
    if reason.Some? then UserMessageContext(raw, raw, true, reason, [])
    else
      var logs := Contains(raw, "--l");
      var afterLogs := if logs then Replace(raw, "--l", "") else raw;
      var verbose := EndsWith(raw, "--v");
      UserMessageContext(
        raw,
        if verbose then RemoveSuffix(afterLogs, "--v") else afterLogs,
        false, None,
        (if logs then [ViewMessageLogs] else []) + (if verbose then [RequestVerboseReply] else []))
  }

  class DiscordMessageParser {
    /** The limiter the parser consults; it is built with no windows. */
    const rateLimiter: RateLimiter

    constructor ()
      ensures fresh(rateLimiter)
      ensures rateLimiter.limits == [] && rateLimiter.userLogs == map[]
    {
      rateLimiter := new RateLimiter([]);
    }

    method ParseMessage(raw: string, authorId: int, mentionsBot: bool, now: int)
      returns (ctx: UserMessageContext)
      modifies rateLimiter
      ensures rateLimiter.userLogs == Registered(old(rateLimiter.userLogs), authorId, now, rateLimiter.limits)
      ensures ctx == Classify(raw, mentionsBot, Limited(rateLimiter.userLogs, authorId, now, rateLimiter.limits))
    {
      var sanitized := raw;
      var denied := false;
      var denialReason: Option<DenialReason> := None;
      var calledFunctions: seq<SpecialFunctionFlag> := [];

      rateLimiter.RegisterRequest(authorId, now);

      if !mentionsBot {
        denied := true;
        denialReason := Some(DidNotPing);
      }

      var limited := rateLimiter.IsRateLimited(authorId, now);
      if limited {
        denied := true;
        denialReason := Some(RateLimited);
      }

      if !denied && |raw| > MAX_CHARACTERS {
        denied := true;
        denialReason := Some(TooLong);
      }

      if !denied {
        if Contains(raw, "--l") {
          calledFunctions := calledFunctions + [ViewMessageLogs];
          sanitized := Replace(sanitized, "--l", "");
        }
        if EndsWith(raw, "--v") {
          calledFunctions := calledFunctions + [RequestVerboseReply];
          sanitized := RemoveSuffix(sanitized, "--v");
        }
      }

      ctx := UserMessageContext(raw, sanitized, denied, denialReason, calledFunctions);
    }
  }

  /** The raw content is kept as given, and a message is denied exactly
      when it carries a denial reason; a denied message has no flags and
      its content untouched. */
  lemma ContextShape(raw: string, mentioned: bool, limited: bool)
    ensures var ctx := Classify(raw, mentioned, limited);
            ctx.rawContent == raw
            && (ctx.denied <==> ctx.denialReason.Some?)
            && (ctx.denied ==> ctx.calledFunctions == [] && ctx.sanitizedContent == raw)
  {
  }

  /** Denial order: a rate-limited author is denied as RATE_LIMITED even
      without a ping; otherwise a missing ping is DID_NOT_PING; TOO_LONG
      applies only to an otherwise admissible message over 1024 characters. */
  lemma DenialOrder(raw: string, mentioned: bool, limited: bool)
    ensures limited ==> Classify(raw, mentioned, limited).denialReason == Some(RateLimited)
    ensures !limited && !mentioned ==> Classify(raw, mentioned, limited).denialReason == Some(DidNotPing)
    ensures (Classify(raw, mentioned, limited).denialReason == Some(TooLong))
              <==> mentioned && !limited && |raw| > MAX_CHARACTERS
  {
  }

  /** A mentioned, unlimited message of exactly 1024 characters passes. */
  lemma ExactlyMaxPasses(raw: string)
    requires |raw| == MAX_CHARACTERS
    ensures !Classify(raw, true, false).denied
  {
  }

  /** The parser's own limiter has no windows, so RATE_LIMITED is never
      produced, whatever the author's history. */
  lemma NeverRateLimited(raw: string, mentioned: bool, userLogs: map<int, seq<int>>, authorId: int, now: int)
    ensures Classify(raw, mentioned, Limited(userLogs, authorId, now, [])).denialReason != Some(RateLimited)
  {
  }

  /** For an admitted message: "--l" anywhere sets VIEW_MESSAGE_LOGS,
      a trailing "--v" sets REQUEST_VERBOSE_REPLY, and the logs flag comes
      first when both are set. */
  lemma AdmittedFlags(raw: string)
    requires |raw| <= MAX_CHARACTERS
    ensures var ctx := Classify(raw, true, false);
            !ctx.denied
            && (ViewMessageLogs in ctx.calledFunctions <==> Contains(raw, "--l"))
            && (RequestVerboseReply in ctx.calledFunctions <==> EndsWith(raw, "--v"))
            && (Contains(raw, "--l") && EndsWith(raw, "--v") ==>
                  ctx.calledFunctions == [ViewMessageLogs, RequestVerboseReply])
  {
  }

  /** Removing every "--l" cannot disturb a trailing "--v" (no occurrence of
      "--l" can overlap it), so the verbose flag strips exactly that suffix:
      for raw == t + "--v" the sanitized text is t with every "--l"
      removed. */
  lemma {:induction false} VerboseStripsTrailingFlag(t: string)
    requires |t| + 3 <= MAX_CHARACTERS
    ensures Classify(t + "--v", true, false).sanitizedContent == Replace(t, "--l", "")
  {
    var raw := t + "--v";
    assert EndsWith(raw, "--v") by {
      assert raw[|raw| - 3..] == "--v";
    }
    ReplaceKeepsTrailingV(t);
    ReplaceAbsentOrKept(t);
    var afterLogs := if Contains(raw, "--l") then Replace(raw, "--l", "") else raw;
    assert afterLogs == Replace(t, "--l", "") + "--v";
    assert RemoveSuffix(afterLogs, "--v") == Replace(t, "--l", "") by {
      var r := Replace(t, "--l", "");
      assert (r + "--v")[..|r + "--v"| - 3] == r;
    }
  }

  /** Whether or not "--l" occurs, the text after the logs step is
      `Replace(t + "--v", "--l", "")`. */
  lemma ReplaceAbsentOrKept(t: string)
    ensures !Contains(t + "--v", "--l") ==> Replace(t + "--v", "--l", "") == t + "--v"
  {
    if !Contains(t + "--v", "--l") {
      ReplaceAbsent(t + "--v", "--l", "");
    }
  }

  lemma ReplaceKeepsTrailingV(t: string)
    ensures Replace(t + "--v", "--l", "") == Replace(t, "--l", "") + "--v"
  {
    var v := "--v";
    assert NoStraddle("--l", v) by {
      assert "--l"[1..][1] != v[..2][1] && "--l"[2..][0] != v[..1][0];
    }
    assert Replace(v, "--l", "") == v by {
      assert v[..3][2] != "--l"[2];
      assert Replace(v[1..], "--l", "") == v[1..];
    }
    ReplaceKeepsTail(t, v, "--l", "");
  }

  /** Removing every "--l" in one left-to-right pass can leave a new "--l"
      behind: "----ll" becomes "--l". */
  lemma FlagRemovalCanLeaveFlag()
    ensures Replace("----ll", "--l", "") == "--l"
  {
    assert "----ll"[..3][2] != "--l"[2];
    assert "----ll"[1..] == "---ll";
    assert "---ll"[..3][2] != "--l"[2];
    assert "---ll"[1..] == "--ll";
    assert "--ll"[..3] == "--l";
    assert "--ll"[3..] == "l";
    assert Replace("l", "--l", "") == "l";
  }
}
