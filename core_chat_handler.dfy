/** The message handler of the current bot revision
    (core/bot_workflow/discord_chat_handler.py): the dispatch order of
    `on_message`, and the bookkeeping `respond_with_llm` does on the shared
    conversation history, the log cache and long-term memory around one
    generated reply. Discord and the LLM are parameters: the outcome of the
    generation, the id of the "typing" placeholder, the ids Discord gives
    further replies, the bot's nick and the clock. The process-wide log
    cache is an explicit ResponseLogsManager object. */
module CoreChatHandler {
  import opened Base
  import opened Text
  import opened History
  import opened ResponseLogs
  import opened MessageParser
  import opened ReplyChunks

  /** What `on_message` does with a parsed message. */
  datatype Action =
    | Ignore
    | ReplyRateLimited
    | ReactTooLong(emojis: seq<string>)
    | HandleLogRequest
    | RespondWithLlm(verbose: bool)

  /** The regional-indicator letters T, L, D, R. */
  const TOO_LONG_REACTIONS: seq<string> := ["\U{1F1F9}", "\U{1F1F1}", "\U{1F1E9}", "\U{1F1F7}"]

  const RATE_LIMITED_REPLY: string := "You are rate limited, please wait"

  function Dispatch(authorIsBot: bool, ctx: UserMessageContext): Action
  {
    if authorIsBot then Ignore
    else if ctx.denialReason == Some(DidNotPing) then Ignore
    else if ctx.denialReason == Some(RateLimited) then ReplyRateLimited
    else if ctx.denialReason == Some(TooLong) then ReactTooLong(TOO_LONG_REACTIONS)
    else if ViewMessageLogs in ctx.calledFunctions then HandleLogRequest
    else RespondWithLlm(RequestVerboseReply in ctx.calledFunctions)
  }

  /** Only an admitted message from a person reaches the LLM, and the
      verbose flag is passed on only when no log request was made. */
  lemma DispatchReachesLlm(authorIsBot: bool, raw: string, mentioned: bool, limited: bool)
    ensures var ctx := Classify(raw, mentioned, limited);
            (Dispatch(authorIsBot, ctx).RespondWithLlm?)
              <==> !authorIsBot && !ctx.denied && !Contains(raw, "--l")
    ensures var ctx := Classify(raw, mentioned, limited);
            Dispatch(authorIsBot, ctx).RespondWithLlm? ==>
              Dispatch(authorIsBot, ctx).verbose == EndsWith(raw, "--v")
  {
    ContextShape(raw, mentioned, limited);
    if !authorIsBot && !Classify(raw, mentioned, limited).denied {
      AdmittedFlags(raw);
    }
  }

  /** Dispatch order: bot authors and unmentioned messages are dropped
      silently, rate-limited ones get a reply, over-long ones four
      reactions, and a log request is served instead of a reply. */
  lemma DispatchOrder(raw: string, mentioned: bool, limited: bool)
    ensures Dispatch(true, Classify(raw, mentioned, limited)) == Ignore
    ensures !mentioned && !limited ==> Dispatch(false, Classify(raw, mentioned, limited)) == Ignore
    ensures limited ==> Dispatch(false, Classify(raw, mentioned, limited)) == ReplyRateLimited
    ensures mentioned && !limited && |raw| > MAX_CHARACTERS ==>
              Dispatch(false, Classify(raw, mentioned, limited)) == ReactTooLong(TOO_LONG_REACTIONS)
    ensures mentioned && !limited && |raw| <= MAX_CHARACTERS && Contains(raw, "--l") ==>
              Dispatch(false, Classify(raw, mentioned, limited)) == HandleLogRequest
  {
    if mentioned && !limited && |raw| <= MAX_CHARACTERS {
      AdmittedFlags(raw);
    }
  }

  /** The outcome of generating a reply: its text and verbose log, or the
      text of the exception raised. */
  datatype Generation = Generated(text: string, verboseLog: string) | Failed(errorText: string)

  /** What the user ends up seeing. */
  datatype ReplyOutcome = Replied(posts: seq<Post>, logId: int) | ShownError(text: string)

  /** The edit `handle_error` makes: the error text cut to 1000 characters. */
  function CoreErrorText(error: string): (r: string)
    ensures |r| <= 1000 + |"There was an error: ``````"|
  {
    "There was an error: ```" + PyTake(error, 1000) + "```"
  }

  /** Long-term memory: the messages handed to it, in order. */
  class LongTermMemory {
    var memorized: seq<Message>

    constructor ()
      ensures memorized == []
    {
      memorized := [];
    }

    method Memorize(m: Message)
      modifies this
      ensures memorized == old(memorized) + [m]
    {
      memorized := memorized + [m];
    }
  }

  class DiscordChatHandler {
    const history: SynchronizedMessageHistory
    const logs: ResponseLogsManager
    const longTerm: LongTermMemory?

    constructor (history: SynchronizedMessageHistory, logs: ResponseLogsManager, longTerm: LongTermMemory?)
      ensures this.history == history && this.logs == logs && this.longTerm == longTerm
    {
      this.history := history;
      this.logs := logs;
      this.longTerm := longTerm;
    }

    /** `add` when there is no anchor, `add_after` otherwise; then one copy
        to long-term memory when it is configured. */
    method MemorizeMessage(m: Message, pending: bool, addAfterId: Option<int>)
      modifies history, history.backing, longTerm
      ensures addAfterId.None? ==>
                history.backing.memory == AppendBounded(old(history.backing.memory), m, history.backing.capacity)
      ensures addAfterId.Some? ==>
                var ins := InsertAfterId(old(history.backing.memory), addAfterId.value, m, history.backing.capacity);
                history.backing.memory == if ins.Some? then ins.value else old(history.backing.memory)
      ensures history.backing.capacity == old(history.backing.capacity)
      ensures history.pending == if pending then old(history.pending) + {m.messageId} else old(history.pending)
      ensures longTerm != null ==> longTerm.memorized == old(longTerm.memorized) + [m]
    {
      if addAfterId.None? {
        history.Add(m, pending);
      } else {
        history.AddAfter(addAfterId.value, m, pending);
      }
      if longTerm != null {
        longTerm.Memorize(m);
      }
    }

    /** The incoming message goes through `memorize_message` and is then
        given to long-term memory a second time. */
    method MemorizeDiscordMessage(m: Message, pending: bool, addAfterId: Option<int>)
      modifies history, history.backing, longTerm
      ensures addAfterId.None? ==>
                history.backing.memory == AppendBounded(old(history.backing.memory), m, history.backing.capacity)
      ensures addAfterId.Some? ==>
                var ins := InsertAfterId(old(history.backing.memory), addAfterId.value, m, history.backing.capacity);
                history.backing.memory == if ins.Some? then ins.value else old(history.backing.memory)
      ensures history.backing.capacity == old(history.backing.capacity)
      ensures history.pending == if pending then old(history.pending) + {m.messageId} else old(history.pending)
      ensures longTerm != null ==> longTerm.memorized == old(longTerm.memorized) + [m, m]
    {
      MemorizeMessage(m, pending, addAfterId);
      if longTerm != null {
        longTerm.Memorize(m);
      }
    }

    /** The success path after the chunks were posted: the reply goes in
        after the user message as non-pending, the user message is
        finalized (it is pending, so this cannot raise), and the log is
        stored under `logId`. */
    method CompleteReply(user: Message, reply: Message, logId: int, verboseLog: string)
      requires logs.Inv() && user.messageId in history.pending
      modifies history, history.backing, logs, longTerm
      ensures logs.Inv()
      ensures history.backing.capacity == old(history.backing.capacity)
      ensures var ins := InsertAfterId(old(history.backing.memory), user.messageId, reply, history.backing.capacity);
              history.backing.memory == if ins.Some? then ins.value else old(history.backing.memory)
      ensures history.pending == old(history.pending) - {user.messageId}
      ensures logs.store == Store(old(logs.store), logId, verboseLog, logs.capacity)
      ensures longTerm != null ==> longTerm.memorized == old(longTerm.memorized) + [reply]
    {
      MemorizeMessage(reply, false, Some(user.messageId));
      var finalized := history.MarkFinalized(user.messageId);
      assert finalized.Ok?;
      logs.StoreLog(logId, verboseLog);
    }

    /** Posting a generated reply and, when that worked, completing the
        bookkeeping. An empty reply has no chunks: the RuntimeError is shown
        and nothing changes. */
    method DeliverReply(user: Message, verbose: bool, text: string, verboseLog: string, typingId: int,
                        replyIds: nat -> int, disclaimer: string, botNick: string, now: int)
      returns (outcome: ReplyOutcome)
      requires logs.Inv() && user.messageId in history.pending
      modifies history, history.backing, logs, longTerm
      ensures logs.Inv()
      ensures history.backing.capacity == old(history.backing.capacity)
      ensures text == [] ==>
                outcome == ShownError(CoreErrorText("Ended up with 0 chunks while trying to chunk message with content ''"))
                && history.backing.memory == old(history.backing.memory)
                && history.pending == old(history.pending)
                && logs.store == old(logs.store)
                && (longTerm != null ==> longTerm.memorized == old(longTerm.memorized))
      ensures text != [] ==>
                var lastId := LastSentId(|text|, typingId, replyIds);
                var reply := Message(text, botNick, true, lastId, now);
                var ins := InsertAfterId(old(history.backing.memory), user.messageId, reply, history.backing.capacity);
                outcome.Replied?
                && outcome.logId == (if verbose then lastId else typingId)
                && history.backing.memory == (if ins.Some? then ins.value else old(history.backing.memory))
                && history.pending == old(history.pending) - {user.messageId}
                && logs.store == Store(old(logs.store), outcome.logId, verboseLog, logs.capacity)
                && (longTerm != null ==> longTerm.memorized == old(longTerm.memorized) + [reply])
    {
      var sent := SendDiscordResponse(typingId, text, disclaimer);
      if sent.Err? {
        return ShownError(CoreErrorText(sent.error.detail));
      }
      var posts := sent.value;
      var lastId := if |posts| == 1 then typingId else replyIds(|posts| - 1);
      var replyId := typingId;
      if verbose {
        posts := posts + [Edit(lastId, text, if verboseLog != [] then Some(verboseLog) else None)];
        replyId := lastId;
      }
      var reply := Message(text, botNick, true, lastId, now);
      CompleteReply(user, reply, replyId, verboseLog);
      return Replied(posts, replyId);
    }

    /** `respond_with_llm`. The user message is added at the tail as
        pending. On success the reply (its id is that of the last message
        sent) is inserted after the user message as non-pending, the user
        message is finalized, and the log is stored under the id of the
        message last edited: the last chunk when verbose, else the
        placeholder. On failure the history keeps the user message pending
        and the placeholder shows the error cut to 1000 characters. */
    method RespondWithLlm(user: Message, verbose: bool, generation: Generation, typingId: int,
                          replyIds: nat -> int, disclaimer: string, botNick: string, now: int)
      returns (outcome: ReplyOutcome)
      requires logs.Inv()
      modifies history, history.backing, logs, longTerm
      ensures logs.Inv()
      ensures history.backing.capacity == old(history.backing.capacity)
      ensures outcome.ShownError? ==>
                history.backing.memory == AppendBounded(old(history.backing.memory), user, history.backing.capacity)
                && history.pending == old(history.pending) + {user.messageId}
                && logs.store == old(logs.store)
                && (longTerm != null ==> longTerm.memorized == old(longTerm.memorized) + [user, user])
      ensures generation.Failed? ==> outcome == ShownError(CoreErrorText(generation.errorText))
      ensures generation.Generated? && generation.text == [] ==>
                outcome == ShownError(CoreErrorText("Ended up with 0 chunks while trying to chunk message with content ''"))
      ensures generation.Generated? && generation.text != [] ==>
                var lastId := LastSentId(|generation.text|, typingId, replyIds);
                var reply := Message(generation.text, botNick, true, lastId, now);
                outcome.Replied?
                && outcome.logId == (if verbose then lastId else typingId)
                && history.backing.memory == AfterReply(old(history.backing.memory), user, reply, history.backing.capacity)
                && history.pending == old(history.pending) - {user.messageId}
                && logs.store == Store(old(logs.store), outcome.logId, generation.verboseLog, logs.capacity)
                && (longTerm != null ==> longTerm.memorized == old(longTerm.memorized) + [user, user, reply])
    {
      MemorizeDiscordMessage(user, true, None);
      if generation.Failed? {
        return ShownError(CoreErrorText(generation.errorText));
      }
      outcome := DeliverReply(user, verbose, generation.text, generation.verboseLog, typingId,
                              replyIds, disclaimer, botNick, now);
    }
  }

  /** The id of the message a reply of `n` characters ends in: the
      placeholder when it fits in one chunk, else the last further reply. */
  function LastSentId(n: nat, typingId: int, replyIds: nat -> int): int
  {
    if ChunkCount(n) <= 1 then typingId else replyIds(ChunkCount(n) - 1)
  }

  /** The history after a successful reply: user message added at the tail,
      reply inserted after it (when the user message is still there). */
  function AfterReply(mem: seq<Message>, user: Message, reply: Message, cap: int): seq<Message>
  {
    var afterUser := AppendBounded(mem, user, cap);
    var ins := InsertAfterId(afterUser, user.messageId, reply, cap);
    if ins.Some? then ins.value else afterUser
  }

  /** After a successful reply to a message whose id was not yet in a
      history with room for two, the history ends with the user message
      followed by the reply, and both are in the finalized view when the
      reply's id is not pending. */
  lemma {:induction false} ReplyFollowsUserMessage(mem: seq<Message>, pending: set<int>, user: Message, reply: Message, cap: int)
    requires cap >= 2
    requires forall k :: 0 <= k < |mem| ==> mem[k].messageId != user.messageId
    requires reply.messageId != user.messageId && reply.messageId !in pending
    ensures var r := AfterReply(mem, user, reply, cap);
            |r| >= 2 && r[|r| - 2..] == [user, reply]
            && user in Finalized(r, pending - {user.messageId})
            && reply in Finalized(r, pending - {user.messageId})
  {
    var afterUser := AppendBounded(mem, user, cap);
    var last := |afterUser| - 1;
    assert afterUser[last] == user;
    assert forall k :: 0 <= k < last ==> afterUser[k].messageId != user.messageId by {
      forall k | 0 <= k < last
        ensures afterUser[k].messageId != user.messageId
      {
        if |mem| + 1 > cap {
          assert afterUser[k] == mem[k + 1];
        } else {
          assert afterUser[k] == mem[k];
        }
      }
    }
    assert IndexOfId(afterUser, user.messageId) == Some(last);
    assert afterUser[..last + 1] + [reply] + afterUser[last + 1..] == afterUser + [reply];
    var r := InsertAfterId(afterUser, user.messageId, reply, cap).value;
    assert r == AfterReply(mem, user, reply, cap);
    assert r[|r| - 2..] == [user, reply];
    assert r[|r| - 2] == user && r[|r| - 1] == reply;
    FinalizedExactlyNonPending(r, pending - {user.messageId});
  }
}
