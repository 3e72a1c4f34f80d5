/** The message handler of the older bot revision
    (bot_workflow/discord_chat_handler.py), where it differs from the current
    one: the log is attached to the placeholder before the chunks are sent
    and is always stored under the placeholder's id, the error text is shown
    in full, and long-term memory is used without a None check. Also the
    log request (`handle_log_request`, the same in both revisions): the
    message id is read from the content with Python's `int()`. */
module LegacyChatHandler {
  import opened Base
  import opened Text
  import opened History
  import opened ResponseLogs
  import opened ReplyChunks
  import opened CoreChatHandler

  /** The edit `handle_error` makes in this revision: the whole error text. */
  function LegacyErrorText(error: string): string
  {
    "There was an error: ```" + error + "```"
  }

  /** The two revisions show the same text for errors of at most 1000
      characters; beyond that only the current one cuts the text. */
  lemma ErrorTextRevisions(error: string)
    ensures |error| <= 1000 ==> CoreErrorText(error) == LegacyErrorText(error)
    ensures |error| > 1000 ==> |CoreErrorText(error)| < |LegacyErrorText(error)|
  {
  }

  /** A reply to a log request: the log as a file, or a plain text. */
  datatype LogReply = LogFile(content: string, file: string) | TextReply(content: string)

  /** `handle_log_request`: strip, remove every "--l", read an int. A
      non-integer gets the invalid-request reply quoting what was read; an
      id without a stored log gets "No log with that ID found". */
  function HandleLogRequest(content: string, store: LogStore): LogReply
  {
    var sanitized := Replace(Strip(content), "--l", "");
    match ParseInt(sanitized)
    case None => TextReply(":x: Expected a message ID before --l, not '" + sanitized + "'")
    case Some(id) =>
      match Get(store, id)
      case None => TextReply("No log with that ID found")
      case Some(log) =>
        LogFile("Verbose logs for message ID " + IntToString(id) + " attached (only last 10 are stored)", log)
  }

  /** Asking for "<id> --l" returns the log stored under that id, or says
      there is none. */
  lemma {:induction false} LogRequestRoundTrip(id: int, store: LogStore)
    ensures Get(store, id).Some? ==>
              HandleLogRequest(IntToString(id) + " --l", store)
                == LogFile("Verbose logs for message ID " + IntToString(id) + " attached (only last 10 are stored)",
                           store.logs[id])
    ensures Get(store, id).None? ==>
              HandleLogRequest(IntToString(id) + " --l", store) == TextReply("No log with that ID found")
  {
    var x := IntToString(id);
    var content := x + " --l";
    ParseIntRoundTrip(id);
    assert x[0] == '-' || IsDigit(x[0]);
    assert content[0] == x[0] && content[|content| - 1] == 'l';
    assert StripLeft(content) == content;
    assert StripRight(content) == content;
    assert content == (x + " ") + "--l";
    IntToStringHasNoL(id);
    ReplaceTrailingFlag(x + " ");
  }

  lemma IntToStringHasNoL(n: int)
    ensures forall k :: 0 <= k < |IntToString(n) + " "| ==> (IntToString(n) + " ")[k] != 'l'
  {
    var d := NatToString(if n < 0 then -n else n);
    assert forall k :: 0 <= k < |d| ==> d[k] != 'l';
  }

  /** Removing "--l" from a text without the letter l followed by "--l"
      removes exactly that trailing flag. */
  lemma {:induction false} ReplaceTrailingFlag(a: string)
    requires forall k :: 0 <= k < |a| ==> a[k] != 'l'
    ensures Replace(a + "--l", "--l", "") == a
    decreases |a|
  {
    var s := a + "--l";
    if a == [] {
      assert s[..3] == "--l" && s[3..] == [];
    } else {
      assert s[2] != 'l' by {
        if |a| >= 3 { assert s[2] == a[2]; }
      }
      assert s[..3][2] != "--l"[2];
      assert s[1..] == a[1..] + "--l";
      ReplaceTrailingFlag(a[1..]);
      assert a == [a[0]] + a[1..];
    }
  }

  class LegacyDiscordChatHandler {
    const history: SynchronizedMessageHistory
    const logs: ResponseLogsManager
    const longTerm: LongTermMemory?

    constructor (history: SynchronizedMessageHistory, logs: ResponseLogsManager, longTerm: LongTermMemory?)
      ensures this.history == history && this.logs == logs && this.longTerm == longTerm
    {
      this.history := history;
      this.logs := logs;
      this.longTerm := longTerm;
    }

    /** `add` or `add_after` with the pending flag, over a history that
        takes it, then long-term memory, which raises AttributeError when no
        long-term memory is configured. */
    method MemorizeMessage(m: Message, pending: bool, addAfterId: Option<int>) returns (r: Result<()>)
      modifies history, history.backing, longTerm
      ensures addAfterId.None? ==>
                history.backing.memory == AppendBounded(old(history.backing.memory), m, history.backing.capacity)
      ensures addAfterId.Some? ==>
                var ins := InsertAfterId(old(history.backing.memory), addAfterId.value, m, history.backing.capacity);
                history.backing.memory == if ins.Some? then ins.value else old(history.backing.memory)
      ensures history.backing.capacity == old(history.backing.capacity)
      ensures history.pending == if pending then old(history.pending) + {m.messageId} else old(history.pending)
      ensures longTerm == null ==> r == Err(AttributeError)
      ensures longTerm != null ==> r == Ok(()) && longTerm.memorized == old(longTerm.memorized) + [m]
    {
      if addAfterId.None? {
        history.Add(m, pending);
      } else {
        history.AddAfter(addAfterId.value, m, pending);
      }
      if longTerm == null {
        return Err(AttributeError);
      }
      longTerm.Memorize(m);
      return Ok(());
    }

    /** `respond_with_llm` of this revision, over a history with pending
        ids, `add_after` and `mark_finalized` (the older history has none of
        these, so as written the first memorize raises TypeError). Without
        long-term memory the first memorize raises before the try block and
        the exception leaves the handler. Otherwise: on success the log is
        stored under the placeholder's id; on failure the whole error text
        is shown and the user message stays pending. */
    method RespondWithLlm(user: Message, verbose: bool, generation: Generation, typingId: int,
                          replyIds: nat -> int, disclaimer: string, botNick: string, now: int)
      returns (outcome: Result<ReplyOutcome>)
      requires logs.Inv()
      modifies history, history.backing, logs, longTerm
      ensures logs.Inv()
      ensures history.backing.capacity == old(history.backing.capacity)
      ensures longTerm == null ==> outcome == Err(AttributeError)
      ensures outcome.Err? || outcome.value.ShownError? ==>
                history.backing.memory == AppendBounded(old(history.backing.memory), user, history.backing.capacity)
                && history.pending == old(history.pending) + {user.messageId}
                && logs.store == old(logs.store)
      ensures longTerm != null && generation.Failed? ==>
                outcome == Ok(ShownError(LegacyErrorText(generation.errorText)))
      ensures longTerm != null && generation.Generated? && generation.text == [] ==>
                outcome == Ok(ShownError(LegacyErrorText("Ended up with 0 chunks while trying to chunk message with content ''")))
      ensures longTerm != null && generation.Generated? && generation.text != [] ==>
                var lastId := LastSentId(|generation.text|, typingId, replyIds);
                var reply := Message(generation.text, botNick, true, lastId, now);
                outcome.Ok? && outcome.value.Replied?
                && outcome.value.logId == typingId
                && history.backing.memory == AfterReply(old(history.backing.memory), user, reply, history.backing.capacity)
                && history.pending == old(history.pending) - {user.messageId}
                && logs.store == Store(old(logs.store), typingId, generation.verboseLog, logs.capacity)
                && longTerm.memorized == old(longTerm.memorized) + [user, user, reply]
    {
      var memorized := MemorizeMessage(user, true, None);
      if memorized.Err? {
        return Err(memorized.error);
      }
      longTerm.Memorize(user);
      assert longTerm.memorized == old(longTerm.memorized) + [user, user];
      if generation.Failed? {
        return Ok(ShownError(LegacyErrorText(generation.errorText)));
      }
      var r := DeliverReply(user, verbose, generation.text, generation.verboseLog, typingId,
                            replyIds, disclaimer, botNick, now);
      return Ok(r);
    }

    /** The bookkeeping after the chunks were posted: the reply goes in
        after the user message (and to long-term memory), the user message
        is finalized and the log is stored under `logId`. */
    method CompleteReply(user: Message, reply: Message, logId: int, verboseLog: string)
      requires logs.Inv() && user.messageId in history.pending && longTerm != null
      modifies history, history.backing, logs, longTerm
      ensures logs.Inv()
      ensures history.backing.capacity == old(history.backing.capacity)
      ensures var ins := InsertAfterId(old(history.backing.memory), user.messageId, reply, history.backing.capacity);
              history.backing.memory == if ins.Some? then ins.value else old(history.backing.memory)
      ensures history.pending == old(history.pending) - {user.messageId}
      ensures logs.store == Store(old(logs.store), logId, verboseLog, logs.capacity)
      ensures longTerm.memorized == old(longTerm.memorized) + [reply]
    {
      var _ := MemorizeMessage(reply, false, Some(user.messageId));
      var finalized := history.MarkFinalized(user.messageId);
      assert finalized.Ok?;
      logs.StoreLog(logId, verboseLog);
    }

    /** Attaching the log to the placeholder (verbose only), posting the
        chunks, then the bookkeeping; the log always goes under the
        placeholder's id. An empty reply has no chunks: the RuntimeError is
        shown and nothing changes. */
    method DeliverReply(user: Message, verbose: bool, text: string, verboseLog: string, typingId: int,
                        replyIds: nat -> int, disclaimer: string, botNick: string, now: int)
      returns (outcome: ReplyOutcome)
      requires logs.Inv() && user.messageId in history.pending && longTerm != null
      modifies history, history.backing, logs, longTerm
      ensures logs.Inv()
      ensures history.backing.capacity == old(history.backing.capacity)
      ensures text == [] ==>
                outcome == ShownError(LegacyErrorText("Ended up with 0 chunks while trying to chunk message with content ''"))
                && history.backing.memory == old(history.backing.memory)
                && history.pending == old(history.pending)
                && logs.store == old(logs.store)
                && longTerm.memorized == old(longTerm.memorized)
      ensures text != [] ==>
                var lastId := LastSentId(|text|, typingId, replyIds);
                var reply := Message(text, botNick, true, lastId, now);
                var ins := InsertAfterId(old(history.backing.memory), user.messageId, reply, history.backing.capacity);
                var first := if verbose then 1 else 0;
                outcome.Replied?
                && outcome.logId == typingId
                && |outcome.posts| == first + ChunkCount(|text|)
                && (verbose ==> outcome.posts[0] == Edit(typingId, text, if verboseLog != [] then Some(verboseLog) else None))
                && outcome.posts[first] == Edit(typingId, Slice(text, 0) + disclaimer, None)
                && history.backing.memory == (if ins.Some? then ins.value else old(history.backing.memory))
                && history.pending == old(history.pending) - {user.messageId}
                && logs.store == Store(old(logs.store), typingId, verboseLog, logs.capacity)
                && longTerm.memorized == old(longTerm.memorized) + [reply]
    {
      var attached: seq<Post> := [];
      if verbose {
        attached := [Edit(typingId, text, if verboseLog != [] then Some(verboseLog) else None)];
      }
      var sent := SendDiscordResponse(typingId, text, disclaimer);
      if sent.Err? {
        return ShownError(LegacyErrorText(sent.error.detail));
      }
      var lastId := if |sent.value| == 1 then typingId else replyIds(|sent.value| - 1);
      var reply := Message(text, botNick, true, lastId, now);
      CompleteReply(user, reply, typingId, verboseLog);
      return Replied(attached + sent.value, typingId);
    }
  }
}
