/** The chat handler of the first revision (chat_handler.py): which
    messages are answered, in what order the admission checks run, and
    what happens to the rate limiter and the bot's short-term memory around
    a reply. Discord calls become the actions the handler performs, the
    clock is `now`, and generating the answer is an oracle argument. */
module RootChatHandler {
  import opened Base
  import opened RateLimits

  const MAX_CHAT_CHARACTERS := 500

  /** The five windows of the handler's limiter. */
  const LIMITS := [RateLimit(3, 10), RateLimit(10, 60), RateLimit(35, 5 * 60),
                   RateLimit(100, 2 * 3600), RateLimit(250, 8 * 3600)]

  /** The reactions spelling "TLDR" (regional indicator letters). */
  const TOO_LONG_REACTIONS := ["\U{1F1F9}", "\U{1F1F1}", "\U{1F1E9}", "\U{1F1F7}"]

  const RATE_LIMITED_REPLY := "<:Paperno:1022991562810077274> :x: `You are being rate limited`"
  const TYPING_REPLY := "<:paperUwU:1018366709658308688> Paper-Chan is typing..."
  const DISCLAIMER := "<:unofficial:1233866785862848583><:unofficial_1:1233866787314073781><:unofficial_2:1233866788777754644>  | [Learn more.](https://discord.com/channels/532557135167619093/1192649325709381673/1196285641978302544)"

  /** The text of the AttributeError raised by `self.paper_chan`, which the
      handler never sets. */
  const MISSING_PAPER_CHAN := "'ChatHandler' object has no attribute 'paper_chan'"

  /** An incoming Discord message, as far as the handler looks at it. */
  datatype Incoming = Incoming(id: int, authorId: int, authorIsBot: bool, mentionsBot: bool, content: string)

  /** What the handler does on Discord. `EditReply` rewrites the "typing"
      reply; `withLog` says whether the verbose log is attached, which
      never happens here: the response object is built without `verbose`,
      whose default is False. */
  datatype Action =
    | React(emoji: string)
    | Reply(text: string)
    | EditReply(content: string, withLog: bool)

  /** `should_process_message` as a decision: None means the message is
      taken; otherwise the actions of the rejection. Bots and messages that
      do not mention the bot are ignored silently; then the length check;
      then the rate check. */
  function Rejection(m: Incoming, limited: bool): Option<seq<Action>>
  {
    if m.authorIsBot || !m.mentionsBot then Some([])
    else if |m.content| > MAX_CHAT_CHARACTERS then
      Some([React(TOO_LONG_REACTIONS[0]), React(TOO_LONG_REACTIONS[1]),
            React(TOO_LONG_REACTIONS[2]), React(TOO_LONG_REACTIONS[3])])
    else if limited then Some([Reply(RATE_LIMITED_REPLY)])
    else None
  }

  /** The checks and their order: a bot or a message without a mention is
      dropped whatever else holds; an over-long message gets the four
      reactions whether or not its author is limited; exactly 500
      characters pass; a limited author gets the rate-limit reply; any
      other message is taken. */
  lemma RejectionOrder(m: Incoming, limited: bool)
    ensures m.authorIsBot || !m.mentionsBot ==> Rejection(m, limited) == Some([])
    ensures !m.authorIsBot && m.mentionsBot && |m.content| > 500 ==>
              Rejection(m, limited).Some? && |Rejection(m, limited).value| == 4
              && forall k :: 0 <= k < 4 ==> Rejection(m, limited).value[k] == React(TOO_LONG_REACTIONS[k])
    ensures !m.authorIsBot && m.mentionsBot && |m.content| <= 500 ==>
              Rejection(m, limited) == if limited then Some([Reply(RATE_LIMITED_REPLY)]) else None
    ensures Rejection(m, limited).None? <==> !m.authorIsBot && m.mentionsBot && |m.content| <= 500 && !limited
  {
  }

  /** The memory with every entry of `id` removed, order kept. */
  function Forget(memory: seq<int>, id: int): (r: seq<int>)
    ensures forall x :: x in r <==> x in memory && x != id
    ensures |r| <= |memory|
  {
    if memory == [] then []
    else (if memory[0] == id then [] else [memory[0]]) + Forget(memory[1..], id)
  }

  /** The final edit of the "typing" reply: the answer and the disclaimer,
      or the error text. */
  function FinalEdit(answer: Result<string>): Action
  {
    match answer
    case Ok(text) => EditReply(text + "\n" + DISCLAIMER, false)
    case Err(e) => EditReply(ErrorText(e), false)
  }

  function ErrorText(e: Error): string
  {
    "Sorry, there was error!! <a:notlikepaper:1165467302578360401> ```" + ErrorString(e) + "```"
  }

  /** `str(e)`: the text of a RuntimeError and of the missing attribute;
      other errors are shown by an unspecified text. */
  function ErrorString(e: Error): string
  {
    match e
    case RuntimeError(d) => d
    case AttributeError => MISSING_PAPER_CHAN
    case _ => ""
  }

  /** What `on_message` gets from building and running the response: as
      written, `DiscordBotResponse(self.paper_chan)` raises AttributeError
      before anything is generated; with the attribute corrected to
      `self.kami_chan`, the oracle's answer. */
  function Response(generated: Result<string>, fixed: bool): Result<string>
  {
    if fixed then generated else Err(AttributeError)
  }

  /** As written, with the three-argument `KamiChan(...)` call of the
      constructor and the short-term memory calls repaired, whatever the generator would answer, every
      accepted message ends in the error text, and the reply is never
      memorized. */
  lemma AsWrittenNeverAnswers(generated: Result<string>)
    ensures Response(generated, false).Err?
    ensures FinalEdit(Response(generated, false)) == EditReply(ErrorText(AttributeError), false)
  {
  }

  /** With the attribute corrected, the final edit carries exactly the
      generated text followed by the disclaimer, or the generator's error. */
  lemma FixedAnswers(generated: Result<string>)
    ensures generated.Ok? ==>
              FinalEdit(Response(generated, true)) == EditReply(generated.value + "\n" + DISCLAIMER, false)
    ensures generated.Err? ==> FinalEdit(Response(generated, true)) == EditReply(ErrorText(generated.error), false)
  {
  }

  /** `ChatHandler`: its limiter, the ids in the bot's short-term memory,
      the ids given to long-term memory, and what it did on Discord. */
  class ChatHandler {
    const rateLimiter: RateLimiter
    var shortTerm: seq<int>
    var longTerm: seq<int>
    var actions: seq<Action>

    constructor ()
      ensures fresh(rateLimiter) && rateLimiter.limits == LIMITS && rateLimiter.userLogs == map[]
      ensures shortTerm == [] && longTerm == [] && actions == []
    {
      rateLimiter := new RateLimiter(LIMITS);
      shortTerm := [];
      longTerm := [];
      actions := [];
    }

    /** `should_process_message`: the ordered checks; the limiter is only
        read. */
    method ShouldProcessMessage(m: Incoming, now: int) returns (ok: bool)
      modifies this
      ensures var rej := Rejection(m, Limited(rateLimiter.userLogs, m.authorId, now, rateLimiter.limits));
              ok == rej.None? && actions == old(actions) + (if ok then [] else rej.value)
      ensures shortTerm == old(shortTerm) && longTerm == old(longTerm)
    {
      if m.authorIsBot || !m.mentionsBot {
        return false;
      }
      if |m.content| > MAX_CHAT_CHARACTERS {
        for i := 0 to 4
          invariant actions == old(actions) + seq(i, k requires 0 <= k < i => React(TOO_LONG_REACTIONS[k]))
          invariant shortTerm == old(shortTerm) && longTerm == old(longTerm)
        {
          actions := actions + [React(TOO_LONG_REACTIONS[i])];
        }
        assert seq(4, k requires 0 <= k < 4 => React(TOO_LONG_REACTIONS[k]))
               == [React(TOO_LONG_REACTIONS[0]), React(TOO_LONG_REACTIONS[1]),
                   React(TOO_LONG_REACTIONS[2]), React(TOO_LONG_REACTIONS[3])];
        return false;
      }
      var limited := rateLimiter.IsRateLimited(m.authorId, now);
      if limited {
        actions := actions + [Reply(RATE_LIMITED_REPLY)];
        return false;
      }
      return true;
    }

    /** `on_message`: a rejected message changes nothing but the actions;
        an accepted one is registered with the limiter, memorized and given
        to long-term memory, answered with the "typing" reply (whose id is
        `replyId`), and then either the reply is memorized and edited to
        the answer, or both the message and the reply are forgotten from
        short-term memory and the reply shows the error. */
    method OnMessage(m: Incoming, now: int, replyId: int, generated: Result<string>, fixed: bool)
      modifies this, rateLimiter
      ensures var rej := Rejection(m, Limited(old(rateLimiter.userLogs), m.authorId, now, rateLimiter.limits));
              if rej.Some? then
                rateLimiter.userLogs == old(rateLimiter.userLogs)
                && shortTerm == old(shortTerm) && longTerm == old(longTerm)
                && actions == old(actions) + rej.value
              else
                var response := Response(generated, fixed);
                rateLimiter.userLogs == Registered(old(rateLimiter.userLogs), m.authorId, now, rateLimiter.limits)
                && actions == old(actions) + [Reply(TYPING_REPLY)]
                              + (if response.Ok? then [EditReply(response.value, false)] else [])
                              + [FinalEdit(response)]
                && shortTerm == (if response.Ok? then old(shortTerm) + [m.id, replyId]
                                 else Forget(Forget(old(shortTerm) + [m.id], m.id), replyId))
                && longTerm == old(longTerm) + [m.id] + (if response.Ok? then [replyId] else [])
    {
      ghost var rej := Rejection(m, Limited(rateLimiter.userLogs, m.authorId, now, rateLimiter.limits));
      ghost var logs0 := rateLimiter.userLogs;
      var ok := ShouldProcessMessage(m, now);
      if !ok {
        assert actions == old(actions) + rej.value;
        return;
      }
      assert rej.None? && actions == old(actions);
      ghost var a0, s0, l0 := actions, shortTerm, longTerm;
      rateLimiter.RegisterRequest(m.authorId, now);
      assert rateLimiter.userLogs == Registered(logs0, m.authorId, now, rateLimiter.limits);
      shortTerm := shortTerm + [m.id];
      longTerm := longTerm + [m.id];
      actions := actions + [Reply(TYPING_REPLY)];
      var response := Response(generated, fixed);
      if response.Ok? {
        actions := actions + [EditReply(response.value, false)];
        shortTerm := shortTerm + [replyId];
        longTerm := longTerm + [replyId];
        actions := actions + [FinalEdit(response)];
        assert shortTerm == s0 + [m.id, replyId];
      } else {
        shortTerm := Forget(shortTerm, m.id);
        shortTerm := Forget(shortTerm, replyId);
        actions := actions + [FinalEdit(response)];
        assert actions == a0 + [Reply(TYPING_REPLY)] + [] + [FinalEdit(response)];
        assert longTerm == l0 + [m.id] + [];
      }
    }
  }

  /** After a failed response neither the message nor the reply is in
      short-term memory, and every other remembered id still is. */
  lemma FailureForgetsBoth(memory: seq<int>, id: int, replyId: int)
    ensures var r := Forget(Forget(memory + [id], id), replyId);
            id !in r && replyId !in r
            && forall x :: x in memory && x != id && x != replyId ==> x in r
  {
  }

  /** Forgetting keeps the other ids in their order. */
  lemma {:induction false} ForgetKeepsOrder(memory: seq<int>, id: int)
    ensures IsSubsequence(Forget(memory, id), memory)
    decreases |memory|
  {
    if memory == [] {
      assert IsSubsequenceWitness([], [], memory);
    } else {
      ForgetKeepsOrder(memory[1..], id);
      SubsequenceCons(Forget(memory[1..], id), memory[1..], memory[0]);
      assert memory == [memory[0]] + memory[1..];
    }
  }
}
