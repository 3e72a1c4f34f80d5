# AIDiscordBot core, modelled in Dafny

This project models the core of AIDiscordBot, a Discord chat bot that answers
mentions with a large-language-model (LLM) completion rewritten "in
character". The repository holds several revisions of the bot side by side:
the current one under `core/`, an older one under `bot_workflow/` and
`ai_apis/`, and the first one at the top level (`chat_handler.py`, `ai.py`,
`knowledge.py`, `kami_chan/`, `paper_chan/`). Each revision's parts are
modelled in their own module. Code that two revisions share unchanged is
modelled once.

What is modelled:

- **Conversation memory.**
  - `History`: the bounded, pending/finalized history of the current revision.
  - `MemorizedHistory`: the bounded short-term memory of the older revision.
  - `PaperChan`: the five-message memory of paper-chan.
- **Admission.**
  - `RateLimits`: the multi-window rate limiter.
  - `MessageParser`: the ordered denial rules and the `--l`/`--v` flags.
  - `RootChatHandler`: the first revision's checks.
  - `ImageGenCommand`: the image command's blocklist, moderation verdict and check order.
- **Around one reply.**
  - `ReplyChunks`: 1800-character chunks and the order they are posted in.
  - `CoreChatHandler` and `LegacyChatHandler`: dispatch and history bookkeeping.
  - `ResponseLogs`: the bounded log cache with oldest-first eviction.
- **Generating a reply.**
  - `BotSteps`: the model fallback cascade, the `re.sub` chain, the log entry, the rephrase and info-select texts and the mention sanitizers.
  - `CoreAiBot`, `LegacyAiBot`, `KamiChan` and `PaperChan`: the bot revisions built on these.
- **Prompt placeholders.** Three revisions of `Prompt.replace`: `CorePrompts`, `ApiPrompts` and `RootPrompts`. They are built on the shared `Prompts` value tree.
- **Knowledge chunking.**
  - `KnowledgeIndex`: `chunk_text`.
  - `KnowledgeSplit`: the word packer and the paragraph filter.
- **Configuration.**
  - `ConfigLoader`: key-path lookups with type checks, `load_profile` and `load_personality`.
  - `Providers`: provider stores and `[ENV]` API-key indirection.
  - `PresetQueries`: keyword matchers and the preset manager.

State the source changes in place is a `class`: the histories, the rate
limiter, the log cache, the handlers, the loggers and the bot memory.
Loops become methods proved against a specification function.

The following are arguments rather than code:
- every LLM completion, moderation call and vision call;
- Discord actions (they become a list of actions, or `effects`);
- the clock (`now`);
- JSON decoding;
- pydantic validation;
- regular-expression substitution;
- the vector database.

Python semantics are written out where they matter:
- truthiness;
- negative slicing, including `l[-0:]`;
- short-circuit `or`;
- `bool` being an `int`;
- `isinstance` with a parameterised generic raising TypeError;
- the exceptions each operation raises, as a `Result`.

## Model

| member | source | states |
|---|---|---|
| RateLimits.Recent | core/util/rate_limits.py:30 | the logs kept for one window are exactly those newer than `now - seconds`, never more than there were |
| RateLimits.MinSeconds | core/util/rate_limits.py:33-35 | the smallest window of a non-empty list is at most every window and is one of them |
| RateLimits.RateLimiter.constructor | core/util/rate_limits.py:9-11 | a new limiter keeps the given windows and has no logs |
| RateLimits.RateLimiter.RegisterRequest | core/util/rate_limits.py:13-17 | the new logs are the old ones with the caller's request appended and then pruned window by window |
| RateLimits.RateLimiter.IsRateLimited | core/util/rate_limits.py:19-31 | limited exactly when the user has logs and some window holds more than its allowed count |
| RateLimits.RecentTwice | core/util/rate_limits.py:33-35 | pruning by two windows in turn equals pruning once by the smaller one |
| RateLimits.PrunedToSmallestWindow | core/util/rate_limits.py:33-35 | the cleanup leaves exactly the requests inside the smallest window |
| RateLimits.NoWindowsKeepEverything | core/util/rate_limits.py:33-35 | with no windows the cleanup keeps every log |
| RateLimits.FreshRequestSurvives | core/util/rate_limits.py:13-17 | with positive windows the request just registered is the caller's last log after the cleanup |
| RateLimits.LastSurvives | core/util/rate_limits.py:33-35 | a log at `now` survives every positive window of the cleanup and stays last |
| RateLimits.RecentKeepsLast | core/util/rate_limits.py:30 | a log at `now` survives one positive window and stays last |
| RateLimits.NoWindowsNeverLimited | core/util/rate_limits.py:19-27 | a limiter without windows never limits |
| RateLimits.UnknownUserNotLimited | core/util/rate_limits.py:20-21 | a user without logs is never limited |
| RateLimits.SameInstantLogs | core/util/rate_limits.py:13-35 | from no logs, k registrations at one instant leave k copies of that instant in the user's log, and no entry when k is 0 |
| RateLimits.SameInstantLimited | core/util/rate_limits.py:19-31 | from no logs, k registrations at one instant leave the user limited exactly when k exceeds n_messages (the comparison is a strict `>`) |
| RateLimits.RegisterTouchesOnlyCaller | core/util/rate_limits.py:13-17 | registering a request leaves every other user's logs as they were |
| RateLimits.RecentAllNew | core/util/rate_limits.py:30 | logs all inside the window are kept unchanged |
| RateLimits.PrunedOneWindow | core/util/rate_limits.py:33-35 | with one window the cleanup is that window's filter |
| RateLimits.ThreePerMinute | core/util/rate_limits.py:13-31 | under one 3-per-60-s window a user is not limited after three registrations at one instant and is after four, so registering before checking lets three requests through |
| ResponseLogs.Get | core/bot_workflow/response_logs.py:13-14 | a log is found exactly for a stored id, and it is the stored one |
| ResponseLogs.StoreKeepsValid | core/bot_workflow/response_logs.py:6-11 | storing keeps the insertion-order key list duplicate-free and in step with the dict |
| ResponseLogs.StoreThenGet | core/bot_workflow/response_logs.py:6-14 | with capacity at least 1, a log just stored is read back |
| ResponseLogs.StoreKeepsBound | core/bot_workflow/response_logs.py:6-11 | the store never holds more than its capacity |
| ResponseLogs.StoreEvictsOldest | core/bot_workflow/response_logs.py:9-11 | a new id in a full store evicts the oldest inserted id and nothing else |
| ResponseLogs.StoreOverwrites | core/bot_workflow/response_logs.py:8 | storing under a known id replaces its log and keeps its place in the insertion order |
| ResponseLogs.ResponseLogsManager.constructor | core/bot_workflow/response_logs.py:2-4 | an empty store with the given capacity |
| ResponseLogs.ResponseLogsManager.StoreLog | core/bot_workflow/response_logs.py:6-11 | the new store is `Store` of the old one, and the invariant holds |
| ResponseLogs.ResponseLogsManager.GetLogById | core/bot_workflow/response_logs.py:13-14 | the stored log for that id, or None when there is none |
| History.IndexOfId | core/bot_workflow/types.py:20-21 | the first position holding the id, or None exactly when no message has it |
| History.MessageSnapshotHistory.constructor | core/bot_workflow/types.py:6-12 | no history gives an empty memory; otherwise the last `memory_length` messages (Python `[-n:]`, so 0 keeps everything) |
| History.MessageSnapshotHistory.Add | core/bot_workflow/types.py:14-17 | the message is appended and the oldest one dropped when the capacity is exceeded |
| History.MessageSnapshotHistory.AddAfter | core/bot_workflow/types.py:19-26 | true exactly when some message has the id; then the new message sits right after the first such message, with head eviction; otherwise nothing changes |
| History.MessageSnapshotHistory.Remove | core/bot_workflow/types.py:28-29 | every message with that id is removed, the others kept |
| History.MessageSnapshotHistory.Clone | core/bot_workflow/types.py:31-36 | a fresh history with the same capacity and the last `capacity` messages, equal to the original when within capacity |
| History.SynchronizedMessageHistory.constructor | core/bot_workflow/types.py:50-53 | wraps the history with no pending ids |
| History.SynchronizedMessageHistory.Add | core/bot_workflow/types.py:55-59 | adds to the backing history and marks the id pending when asked |
| History.SynchronizedMessageHistory.AddAfter | core/bot_workflow/types.py:61-65 | inserts after the id when present (otherwise no change) and marks the new id pending when asked, even when nothing was inserted |
| History.SynchronizedMessageHistory.MarkFinalized | core/bot_workflow/types.py:67-72 | a pending id is unmarked; a non-pending one raises ValueError and changes nothing |
| History.SynchronizedMessageHistory.GetFinalizedMessageHistory | core/bot_workflow/types.py:77-84 | a fresh default-capacity history of the non-pending messages, in order, cut to the last 14 |
| History.FinalizedAppend | core/bot_workflow/types.py:81-83 | the filter distributes over an appended message |
| History.FinalizedExactlyNonPending | core/bot_workflow/types.py:81-83 | the finalized list holds exactly the messages whose id is not pending |
| History.FinalizedKeepsOrder | core/bot_workflow/types.py:81-83 | the finalized list keeps the history's order |
| History.FinalizedNoPending | core/bot_workflow/types.py:81-83 | with nothing pending the finalized list is the whole history |
| History.AddAfterPlacement | core/bot_workflow/types.py:19-22 | below capacity the new message lands right after the first message with the id, the rest shifted by one |
| History.AddAfterOverCapacity | core/bot_workflow/types.py:22-24 | inserting after the oldest message of a full history evicts that very message |
| History.InsertionKeepsBound | core/bot_workflow/types.py:14-24 | both insertions keep a history within its capacity |
| History.InsertAfterExample | core/bot_workflow/types.py:19-25 | inserting b after a in [a, c] gives [a, b, c] |
| History.PendingLifecycle | core/bot_workflow/types.py:55-72 | adding a message as pending and then finalizing it succeeds and restores the pending set |
| MemorizedHistory.FirstUserPair | bot_workflow/types.py:31-35 | the first index where two user messages follow each other, or None exactly when there is no such pair |
| MemorizedHistory.FirstUserPairAt | bot_workflow/types.py:31-35 | the first pair of consecutive user messages is the one the scan stops at |
| MemorizedHistory.MemorizedMessageHistory.constructor | bot_workflow/types.py:5-11 | no history gives an empty memory; otherwise the last `memory_length` messages |
| MemorizedHistory.MemorizedMessageHistory.Add | bot_workflow/types.py:13-16 | the message is appended and the oldest dropped beyond capacity |
| MemorizedHistory.MemorizedMessageHistory.Remove | bot_workflow/types.py:18-19 | every message with that id is removed |
| MemorizedHistory.MemorizedMessageHistory.Clone | bot_workflow/types.py:21-26 | a fresh history with the same capacity and the last `capacity` messages |
| MemorizedHistory.MemorizedMessageHistory.WithoutDupeEndingUserMsgs | bot_workflow/types.py:28-41 | a fresh default-capacity history of the deduplicated messages, cut to the last 8 |
| MemorizedHistory.DedupeEndingShape | bot_workflow/types.py:28-41 | the result is no longer than the memory, ends with the memory's last message, and has no two consecutive user messages |
| MemorizedHistory.DedupeEndingNoPair | bot_workflow/types.py:31-41 | a memory without consecutive user messages is kept as it is |
| MemorizedHistory.NoUserPairDrop | bot_workflow/types.py:10 | dropping a prefix keeps the absence of consecutive user messages |
| MemorizedHistory.RebuiltHasNoUserPair | bot_workflow/types.py:39-41 | the rebuilt, truncated history has no consecutive user messages |
| MemorizedHistory.DedupeEndingExample | bot_workflow/types.py:34-39 | for user, user, bot, user everything before the pair is kept and the pair is replaced by the last message: the result is [last] |
| MessageParser.DiscordMessageParser.constructor | core/bot_workflow/discord_message_parser.py:25-35 | the limiter actually consulted is built with no windows (the five-window limiter goes to an unused attribute) |
| MessageParser.DiscordMessageParser.ParseMessage | core/bot_workflow/discord_message_parser.py:37-73 | every message is registered first, and the context is the classification under the limiter's verdict after that registration |
| MessageParser.ContextShape | core/bot_workflow/discord_message_parser.py:38-73 | the raw text is kept; denied exactly when a reason is given; a denied message has no flags and untouched text |
| MessageParser.DenialOrder | core/bot_workflow/discord_message_parser.py:46-56 | a rate limit overrides a missing ping; too long is the reason exactly for a pinged, unlimited message over the maximum |
| MessageParser.ExactlyMaxPasses | core/bot_workflow/discord_message_parser.py:54 | a message of exactly 1024 characters is admitted |
| MessageParser.NeverRateLimited | core/bot_workflow/discord_message_parser.py:50-52 | with the window-less limiter no message is ever denied as rate limited (see also lines 27) |
| MessageParser.AdmittedFlags | core/bot_workflow/discord_message_parser.py:58-65 | for an admitted message, the log flag is set exactly when "--l" occurs anywhere, the verbose flag exactly when the text ends with "--v", in that order |
| MessageParser.VerboseStripsTrailingFlag | core/bot_workflow/discord_message_parser.py:59-65 | a trailing "--v" is stripped after the "--l" removal, leaving the rest with "--l" removed |
| MessageParser.ReplaceAbsentOrKept | core/bot_workflow/discord_message_parser.py:61 | text without "--l" is not changed by the removal |
| MessageParser.ReplaceKeepsTrailingV | core/bot_workflow/discord_message_parser.py:61-65 | removing "--l" never touches a trailing "--v", so the suffix is still there to strip |
| MessageParser.FlagRemovalCanLeaveFlag | core/bot_workflow/discord_message_parser.py:61 | one pass of removal can leave a "--l" behind: "----ll" becomes "--l" |
| CoreChatHandler.DispatchReachesLlm | core/bot_workflow/discord_chat_handler.py:29-48 | a message reaches the LLM exactly when a human sent it, the parser admitted it and it holds no "--l"; verbose exactly when it ends with "--v" |
| CoreChatHandler.DispatchOrder | core/bot_workflow/discord_chat_handler.py:30-45 | bots are ignored; then no ping is ignored, a rate limit gets the reply, too long gets the four reactions, and a "--l" goes to the log request |
| CoreChatHandler.CoreErrorText | core/bot_workflow/discord_chat_handler.py:149-154 | the error text shows at most the first 1000 characters of the error |
| CoreChatHandler.LongTermMemory.constructor | core/bot_workflow/discord_chat_handler.py:136-137 | long-term memory starts empty |
| CoreChatHandler.LongTermMemory.Memorize | core/bot_workflow/discord_chat_handler.py:136-137 | memorizing appends the message |
| CoreChatHandler.DiscordChatHandler.constructor | core/bot_workflow/discord_chat_handler.py:16-26 | the handler keeps the bot's history, the log store and the optional long-term memory |
| CoreChatHandler.DiscordChatHandler.MemorizeMessage | core/bot_workflow/discord_chat_handler.py:124-137 | without an anchor the message is appended, with one it is inserted after the anchor (no change when absent); pending as asked; long-term memory, when present, gets it once |
| CoreChatHandler.DiscordChatHandler.MemorizeDiscordMessage | core/bot_workflow/discord_chat_handler.py:139-147 | as `MemorizeMessage`, but a present long-term memory receives the message twice |
| CoreChatHandler.DiscordChatHandler.CompleteReply | core/bot_workflow/discord_chat_handler.py:76-88 | the reply is inserted after the user message, the user message is finalized, the verbose log stored under the log id, and the reply given to long-term memory |
| CoreChatHandler.DiscordChatHandler.DeliverReply | core/bot_workflow/discord_chat_handler.py:71-88 | an empty answer shows the zero-chunk error and changes no state; otherwise the reply (id of the last chunk sent) follows the user message, which is finalized, and the log is stored under the last chunk's id when verbose, else under the typing reply's id (see also lines 106-122) |
| CoreChatHandler.DiscordChatHandler.RespondWithLlm | core/bot_workflow/discord_chat_handler.py:66-90 | the user message is memorized as pending before anything else; a failure shows the error and leaves it pending, with no log stored; a success ends with user message then reply in history, the user message finalized and the log stored |
| CoreChatHandler.ReplyFollowsUserMessage | core/bot_workflow/discord_chat_handler.py:76-87 | after a success the history ends with the user message followed by the reply, and both are in the finalized history (see also lines 67) |
| ReplyChunks.ComputeChunks | core/bot_workflow/discord_chat_handler.py:107-110 | the chunks are the consecutive 1800-character slices, their number is the ceiling of the length over 1800, and they concatenate back to the answer |
| ReplyChunks.SliceLengths | core/bot_workflow/discord_chat_handler.py:109-110 | every chunk is non-empty and at most 1800 characters, and all but the last exactly 1800 |
| ReplyChunks.ChunkCountZero | core/bot_workflow/discord_chat_handler.py:112-113 | there are no chunks exactly when the answer is empty |
| ReplyChunks.SendDiscordResponse | core/bot_workflow/discord_chat_handler.py:106-122 | an empty answer raises the zero-chunk RuntimeError; otherwise the typing reply is edited to the first chunk plus the disclaimer and every further chunk is sent as a reply, in order |
| ReplyChunks.ConcatSlices | core/bot_workflow/discord_chat_handler.py:109-110 | the first n slices concatenate to the answer's first n·1800 characters |
| LegacyChatHandler.ErrorTextRevisions | bot_workflow/discord_chat_handler.py:150-155 | the older error text shows the whole error; it agrees with the current one up to 1000 characters and is longer beyond |
| LegacyChatHandler.LogRequestRoundTrip | bot_workflow/discord_chat_handler.py:52-66 | "<id> --l" returns the stored log as a file with the log-file reply, or "No log with that ID found" |
| LegacyChatHandler.IntToStringHasNoL | bot_workflow/discord_chat_handler.py:53 | a printed id holds no 'l', so removing "--l" cannot eat into it |
| LegacyChatHandler.ReplaceTrailingFlag | bot_workflow/discord_chat_handler.py:53 | removing "--l" from text without an 'l' followed by the flag gives the text back |
| LegacyChatHandler.LegacyDiscordChatHandler.constructor | bot_workflow/discord_chat_handler.py:17-28 | the handler keeps the history, its own log store and the long-term memory |
| LegacyChatHandler.LegacyDiscordChatHandler.MemorizeMessage | bot_workflow/discord_chat_handler.py:127-139 | over a history with pending ids (the repair listed under Left out), `add` or `add_after` with the pending flag, then long-term memory; a missing long-term memory raises AttributeError after the history was updated |
| LegacyChatHandler.LegacyDiscordChatHandler.RespondWithLlm | bot_workflow/discord_chat_handler.py:68-92 | a missing long-term memory raises out of the handler; failures show the full error and leave the user message pending; a success memorizes, finalizes and stores the log under the typing reply's id, verbose or not |
| LegacyChatHandler.LegacyDiscordChatHandler.CompleteReply | bot_workflow/discord_chat_handler.py:78-90 | the reply follows the user message, which is finalized, the log is stored, and long-term memory gets the reply |
| LegacyChatHandler.LegacyDiscordChatHandler.DeliverReply | bot_workflow/discord_chat_handler.py:99-125 | an empty answer changes nothing but shows the error; otherwise, when verbose, the log is attached to the typing reply before the chunks are posted (first chunk edited in with the disclaimer), and the log id is always the typing reply's (see also lines 72-90) |
| Prompts.MessageConstructors | core/ai_apis/api_types.py:12-37 | system and assistant messages hold role and content; a user message holds its text and an image exactly when a non-empty URL is given |
| Prompts.WordRun | core/ai_apis/api_types.py:47 | the longest run of word characters at the start of a string (the `\w+` of the placeholder pattern) |
| Prompts.MatchAtExactly | core/ai_apis/api_types.py:47 | the match at a position is a name exactly when "((name))" with a maximal word run starts there |
| Prompts.WordRunOf | core/ai_apis/api_types.py:47 | a word run ended by a non-word character has exactly that length |
| Prompts.PlaceholdersFound | core/ai_apis/api_types.py:47 | the scan finds a name exactly when "((name))" occurs somewhere in the text |
| Prompts.ShiftPlaceholder | core/ai_apis/api_types.py:47 | a placeholder found in a suffix is one in the whole text |
| Prompts.UnshiftPlaceholder | core/ai_apis/api_types.py:47 | a placeholder beyond a cut point is one in the suffix |
| Prompts.NoOverlap | core/ai_apis/api_types.py:47 | after a match, the next placeholder starts past its end (`findall` matches do not overlap) |
| Prompts.CoveredMonotone | core/ai_apis/api_types.py:44-49 | a prompt whose placeholders all have replacements still has them with more keys |
| Prompts.SpacedNameNotDetected | core/ai_apis/api_types.py:47 | "((a b))" is no placeholder, since a space is no word character |
| CorePrompts.FirstNonString | core/ai_apis/api_types.py:53-59 | the first field that is not a string, or None exactly when all are strings |
| CorePrompts.ReplaceAllInDict | core/ai_apis/api_types.py:51-60 | string fields have the pattern replaced, a non-string non-dict field raises ValueError, and a dict field recurses on the enclosing dict until Python's recursion limit raises RecursionError |
| CorePrompts.ReplacePlaceholders | core/ai_apis/api_types.py:40-69 | the result is the specified replacement: first every placeholder must have a replacement, then each message is rewritten for each replacement in turn |
| CorePrompts.ErrorPropagates | core/ai_apis/api_types.py:62-67 | an error in one message is the error of the whole prompt |
| CorePrompts.MissingPlaceholderRaises | core/ai_apis/api_types.py:47-49 | a placeholder in any message content without a replacement raises ValueError |
| CorePrompts.UnusedKeysHarmless | core/ai_apis/api_types.py:44-49 | replacements for names that do not occur never cause the missing-placeholder error |
| CorePrompts.DictReplacedShape | core/ai_apis/api_types.py:51-60 | a successful dict rewrite keeps the keys and their order and leaves only string fields |
| CorePrompts.MessageReplacedShape | core/ai_apis/api_types.py:63-66 | a rewritten message keeps its keys |
| CorePrompts.ReplacedShape | core/ai_apis/api_types.py:40-69 | a successful replacement keeps the number of messages and each message's keys |
| CorePrompts.MessagesReplacedShape | core/ai_apis/api_types.py:62-67 | the rewritten messages correspond one to one, keys kept |
| CorePrompts.AbsentPlaceholdersUnchanged | core/ai_apis/api_types.py:62-67 | a string-only message containing none of the formatted placeholders is returned unchanged |
| CorePrompts.ImageMessageRaises | core/ai_apis/api_types.py:20-31 | any replacement on a prompt holding a user message with an image raises ValueError (its content is a list) (see also lines 54-59) |
| CorePrompts.DictFieldRecurses | core/ai_apis/api_types.py:56-57 | a message whose first non-string field is a dict ends in RecursionError |
| CorePrompts.NoReplacementsIdentity | core/ai_apis/api_types.py:40-69 | with no replacements a placeholder-free prompt comes back unchanged |
| CorePrompts.NoReplacementsMessages | core/ai_apis/api_types.py:62-67 | with no replacements every message is kept as it is |
| CorePrompts.ReplacePlus | core/ai_apis/api_types.py:40-69 | replacing in a prompt with one more message equals appending the replaced message to the replaced prompt (see also lines 16-17) |
| CorePrompts.FixedAgreesOnStrings | core/ai_apis/api_types.py:51-60 | the corrected rewrite, recursing on the nested value, agrees with the written one on string-only dicts |
| CorePrompts.NestedContent | core/ai_apis/api_types.py:56-57 | a message with a nested dict field raises RecursionError as written, while the corrected rewrite replaces inside it |
| CorePrompts.StringFieldsReplaced | core/ai_apis/api_types.py:62-67 | a message of string fields keeps its keys in order and has each field's text put through every placeholder replacement in turn (see also lines 52-55) |
| CorePrompts.MessagesReplacedEach | core/ai_apis/api_types.py:62-69 | a successful replacement fills in each message on its own, in its place |
| CorePrompts.ChainNoParen | core/ai_apis/api_types.py:64-66 | a text with no opening parenthesis is unchanged by any placeholder replacements |
| CorePrompts.DistinctPlaceholderAbsent | core/ai_apis/api_types.py:64-66 | the placeholder of one name never occurs in a text made of another name's placeholder between parenthesis-free texts |
| CorePrompts.OnlyTwoParens | core/ai_apis/api_types.py:41-45 | a formatted placeholder "((name))" between parenthesis-free texts holds opening parentheses only at its own two positions |
| CorePrompts.ChainFillsIn | core/ai_apis/api_types.py:64-66 | a placeholder between parenthesis-free texts ends up holding exactly its own key's value, when the keys are distinct names and the values hold no parenthesis |
| ApiPrompts.LiteralTemplate | ai_apis/types.py:48 | a replacement without a backslash is put in as it is |
| ApiPrompts.TemplateErrorIgnoresMatch | ai_apis/types.py:48 | whether the replacement template raises, and what, does not depend on the match: it is parsed before the search |
| ApiPrompts.BadEscapeRaises | ai_apis/types.py:48 | an unknown escape of an ASCII letter (such as `\d` or `\U`) raises `re.error`, whatever follows it |
| ApiPrompts.TrailingBackslashRaises | ai_apis/types.py:48 | a replacement ending in a lone backslash raises `re.error` |
| ApiPrompts.WholeMatchTemplate | ai_apis/types.py:48 | `\g<0>` stands for the whole match |
| ApiPrompts.SubstituteLoop | ai_apis/types.py:46-48 | the loop over the replacements parses each template and substitutes its escaped pattern in turn, raising at the first invalid template |
| ApiPrompts.SubstituteFails | ai_apis/types.py:46-48 | the loop raises exactly when some replacement is an invalid template, whatever the text, and raises the first such template's error |
| ApiPrompts.StringRejected | ai_apis/types.py:37-48 | a string is rejected exactly when it holds a placeholder with no replacement (then ValueError, checked first) or some replacement is an invalid template |
| ApiPrompts.EscapedNeverFires | ai_apis/types.py:47-48 | on text without a backslash the escaped patterns never match, so a substitution that does not raise changes nothing |
| ApiPrompts.PlaceholderLeftInPlace | ai_apis/types.py:35-48 | a covered placeholder passes the check yet stays in the text instead of being filled in; an invalid template value raises its error instead |
| ApiPrompts.ReplaceKeepsShape | ai_apis/types.py:36-55 | a successful replacement keeps the value's shape: strings stay strings, lists keep length, dicts keep keys, other values are unchanged |
| ApiPrompts.ItemsKeepShape | ai_apis/types.py:50-51 | list items are replaced one for one |
| ApiPrompts.EntriesKeepShape | ai_apis/types.py:52-53 | dict entries keep their keys, in order |
| ApiPrompts.ReplacedKeepsMessages | ai_apis/types.py:57-60 | the new prompt has one message per old message, with the same keys |
| ApiPrompts.FormattedFillsIn | ai_apis/types.py:46-48 | the corrected substitution (unescaped format) fills "((key))" with its value's template expansion, which is the value itself when it has no backslash; an invalid template raises |
| RootPrompts.ReplacePlaceholder | ai.py:38-54 | the loop over messages and fields computes the specified replacement, raising when no field changed |
| RootPrompts.SomeChangedSnoc | ai.py:41-47 | the found flag after one more message is the old flag or some field of that message changed |
| RootPrompts.ReplaceSucceeds | ai.py:38-54 | the replacement succeeds exactly when every field is a string, the target differs from the placeholder and the placeholder occurs in some field |
| RootPrompts.SelfReplacementRaises | ai.py:45-52 | replacing a placeholder by itself always raises, since nothing changes |
| RootPrompts.ImageMessageRaises | ai.py:19-30 | a user message with an image makes the replacement raise AttributeError (a list has no `replace`) (see also lines 45) |
| RootPrompts.ReplacedShape | ai.py:41-49 | a successful replacement keeps messages and keys and replaces the placeholder in every field |
| RootPrompts.SendRequest | ai.py:137-153 | the first choice when there are choices; otherwise a RuntimeError carrying the provider's error when it has one, else the "no response choices" text |
| KnowledgeSplit.SplitIntoChunksLoop | knowledge.py:43-60 | the loop over the words computes the packing specification (first revision: `fixed` false) |
| KnowledgeSplit.PackIsPacked | knowledge.py:47-58 | every step keeps the packing invariant: the chunks and the current chunk hold exactly the words so far, each a space-joined run of whole words |
| KnowledgeSplit.FlushKeepsPacked | knowledge.py:49-51 | a word that would overflow closes the current chunk and starts the next one |
| KnowledgeSplit.ExtendKeepsPacked | knowledge.py:52-55 | a word that fits is appended after one space |
| KnowledgeSplit.StartKeepsPacked | knowledge.py:52-55 | a word that fits an empty current chunk becomes the chunk |
| KnowledgeSplit.ChunksKeepWords | knowledge.py:43-60 | the chunks hold exactly the whitespace-separated words of the content, in order |
| KnowledgeSplit.ChunksAreShaped | knowledge.py:43-60 | each chunk is its words joined by single spaces, and any chunk of two or more words fits the chunk size |
| KnowledgeSplit.EmptyChunkOnlyFirst | knowledge.py:49-51 | only the first chunk can be empty, and it is exactly when the first word alone reaches the chunk size; there are no chunks exactly when there are no words (see also lines 57-58) |
| KnowledgeSplit.EmptyFirstChunk | knowledge.py:49-51 | "a" with chunk size 1 gives ["", "a"] |
| KnowledgeSplit.FixedChunksNonEmpty | knowledge.py:49-51 | with the flush skipped for an empty current chunk, no chunk is empty |
| KnowledgeSplit.SplitIntoParagraphs | knowledge.py:62-72 | the paragraphs are the blank-line-separated parts no shorter than the minimum (the maximum is unused) |
| KnowledgeSplit.ParagraphsKept | knowledge.py:62-72 | the parts rejoin to the content; the kept paragraphs are an ordered selection of them, each at least the minimum long, and every long enough part is kept |
| KnowledgeSplit.KeptFilters | knowledge.py:66-70 | the filter keeps exactly the long enough parts, in order |
| KnowledgeIndex.FirstBoundary | core/bot_workflow/knowledge.py:41 | the search for `\b` returns a position at or after its start |
| KnowledgeIndex.FirstBoundaryIsFirst | core/bot_workflow/knowledge.py:41 | it is the first word boundary, and None means there is none |
| KnowledgeIndex.AdjustEnd | core/bot_workflow/knowledge.py:39-43 | the adjusted end never moves back and stays inside the text |
| KnowledgeIndex.AdjustEndMoves | core/bot_workflow/knowledge.py:39-43 | the end moves exactly when it sits on a non-word character with a word character later on, and then to the start of the next word |
| KnowledgeIndex.Bounds | core/bot_workflow/knowledge.py:35-45 | every chunk is a well-formed slice of the text |
| KnowledgeIndex.ChunkTextLoop | core/bot_workflow/knowledge.py:31-46 | the loop computes the chunks of the specification |
| KnowledgeIndex.BoundsStep | core/bot_workflow/knowledge.py:35-45 | one iteration: the start is moved back by the overlap except for the first chunk, the end is adjusted, and the next start is one chunk size further |
| KnowledgeIndex.SlicesCons | core/bot_workflow/knowledge.py:44 | the chunk list is the slices of the bounds, in order |
| KnowledgeIndex.ChunksCoverText | core/bot_workflow/knowledge.py:31-46 | no chunks exactly for empty text; otherwise the first chunk starts at 0 and the last ends at the end of the text |
| KnowledgeIndex.LastBoundEnds | core/bot_workflow/knowledge.py:35-45 | the last chunk reaches the end of the text |
| KnowledgeIndex.ChunksOverlap | core/bot_workflow/knowledge.py:31-46 | consecutive chunks start `chunk_size - overlap` apart and leave no gap; with a positive overlap they do overlap |
| KnowledgeIndex.BoundsLink | core/bot_workflow/knowledge.py:35-45 | the step and no-gap relation between any two consecutive chunks |
| KnowledgeIndex.HeadLink | core/bot_workflow/knowledge.py:35-45 | the step and no-gap relation between the first two chunks of a run |
| KnowledgeIndex.AdjustEndFixed | core/bot_workflow/knowledge.py:39-43 | the corrected end never moves back and stays inside the text |
| KnowledgeIndex.ChunkTextCutsWords | core/bot_workflow/knowledge.py:39-43 | "ab" in chunks of 1 is cut inside the word into "a" and "b" |
| KnowledgeIndex.FixedChunksEndOnWordEdges | core/bot_workflow/knowledge.py:39-43 | with the end moved to the next word boundary, no chunk ends inside a word |
| KnowledgeIndex.FixedBoundsEndOnWordEdges | core/bot_workflow/knowledge.py:35-45 | the same for every run of the corrected loop |
| KnowledgeIndex.AdjustEndFixedOnEdge | core/bot_workflow/knowledge.py:39-43 | the corrected end is never between two word characters |
| KnowledgeIndex.NoBoundaryNoWord | core/bot_workflow/knowledge.py:41-42 | when no boundary follows, the character at the end is no word character |
| PresetQueries.EmptyCases | preset_queries.py:22-26 | a keyword matcher without keywords never matches (`any` of nothing), and a query without matchers always matches (`all` of nothing) (see also lines 42-43) |
| PresetQueries.LowerIdempotent | preset_queries.py:24 | lowering twice is lowering once |
| PresetQueries.LowerSlice | preset_queries.py:24 | lowering commutes with slicing |
| PresetQueries.ContainsLower | preset_queries.py:24 | a keyword found as written is still found after lowering both sides |
| PresetQueries.IgnoreCaseProperties | preset_queries.py:22-26 | an ignore-case match does not depend on the query's case, and every case-sensitive match is also an ignore-case one |
| PresetQueries.CaseExample | preset_queries.py:22-26 | "hell" matches "Hello" ignoring case but not case-sensitively |
| PresetQueries.MatchingQueriesSpec | preset_queries.py:53-60 | the result keeps the stored order and holds exactly the stored queries whose matchers all accept the utterance |
| PresetQueries.PresetQueryManager.constructor | preset_queries.py:46-48 | a new manager has no queries |
| PresetQueries.PresetQueryManager.AddQuery | preset_queries.py:50-51 | the query is appended |
| PresetQueries.PresetQueryManager.GetAllMatchingUserUtterance | preset_queries.py:53-60 | the loop returns the matching queries of the specification |
| PresetQueries.MatchingAfterAdd | preset_queries.py:50-60 | after adding a query, the matches are the old ones followed by the new query when it matches |
| Providers.GetEnvironmentVarCases | core/util/environment_vars.py:8-13 | a required variable that is missing or empty exits with status 1; otherwise the value, or "" when unset |
| Providers.ParseApiKeyCases | core/util/environment_vars.py:15-22 | a key not of the form "[NAME]" is returned as is; "[NAME]" gives that variable's value, or the exit when it is missing or empty; the ValueError branch is never reached |
| Providers.CheckAndLoadApiKeyEffect | core/ai_apis/providers.py:10-15 | the validator replaces a bracketed `api_key` by the variable's value (or exits) and leaves every other input as it is |
| Providers.ValidatorsAgree | ai_apis/providers.py:10-20 | the older validator, which inlines the lookup, gives the same result on every input |
| Providers.MakeProviderDataFields | core/ai_apis/providers.py:6-15 | a plain key builds a provider from the given fields, with the OpenAI address as the default base |
| Providers.ByNameKeepsLast | core/ai_apis/providers.py:19 | the store holds exactly the listed names, and a name's provider is the last one listed under it |
| Providers.GetProviderByNameCases | core/ai_apis/providers.py:22-26 | a listed name gives its (last listed) provider; an unlisted optional name gives None; any other name raises ValueError |
| Providers.LastNamed | core/ai_apis/providers.py:19 | for a listed name, the store's entry is its last occurrence in the list |
| Providers.ParseProvidersLoop | providers.py:13-28 | the loop over the decoded entries computes the specified provider list |
| Providers.FirstBadEntryFails | providers.py:16-25 | the first entry missing one of the three fields makes the parse raise the "Invalid API_PROVIDERS" RuntimeError |
| Providers.ParseProvidersSpec | providers.py:13-28 | the parse succeeds exactly when every entry has the three fields, and then yields one provider per entry, in order |
| Providers.GetProviderByNameFirst | providers.py:30-36 | the first provider with the name; when there is none, a RuntimeError whose message joins "API_PROVIDERS" and "environment variable" with no space |
| Providers.LoadProvidersNeedsVariable | providers.py:38-39 | loading exits with status 1 exactly when API_PROVIDERS is missing or empty |
| ConfigLoader.Lookup | bot_workflow/profile_loader.py:124 | a dict lookup finds a value stored under the key, and fails exactly when no entry has the key |
| ConfigLoader.GetRawLoop | bot_workflow/profile_loader.py:119-129 | the loop down the path computes the specified `_get_raw` |
| ConfigLoader.WalkAppend | bot_workflow/profile_loader.py:121-124 | walking a path in two parts is walking the first part and then the second from where it ended |
| ConfigLoader.GetRawCases | bot_workflow/profile_loader.py:119-129 | the empty path gives the root; a missing key raises KeyError when required and gives None otherwise; a non-dict on the way raises TypeError; otherwise the value found |
| ConfigLoader.WalkErrors | bot_workflow/profile_loader.py:121-124 | the walk fails only with KeyError or TypeError |
| ConfigLoader.SafeGet | bot_workflow/profile_loader.py:165-194 | a returned value is never None and passes the `isinstance` check for the requested type |
| ConfigLoader.SafeGetCases | bot_workflow/profile_loader.py:165-194 | success exactly for a non-null value of the requested type, which is returned; a JSON null raises KeyError; a value of another type raises TypeError; `list[str]` never succeeds; a boolean passes as an int |
| ConfigLoader.ModelsOfKeepsKeys | bot_workflow/profile_loader.py:162-163 | a dict of models is built exactly when every value is an object the model accepts, keeping the keys in order |
| ConfigLoader.ModelGuards | bot_workflow/profile_loader.py:155-163 | a non-model type raises ValueError once the path is found; a model type validates the object found (see also lines 216-224) |
| ConfigLoader.LoadProfileAlwaysFails | bot_workflow/profile_loader.py:54-66 | loading a profile never succeeds, and once the first three parameters load and `llm_fallbacks` is present it fails with TypeError (see also lines 192) |
| ConfigLoader.LoadProfileFixedLoads | bot_workflow/profile_loader.py:54-96 | with the fallbacks checked as a plain list, a profile whose every part loads is built from the values found at their paths |
| ConfigLoader.LoadPersonalityCases | personality_loader.py:31-72 | a personality loads exactly when the three parameters have their types and the prompts are a dict of valid prompts, and then carries the values found; missing prompts raise KeyError |
| ImageGenCommand.VerdictRule | commands/image_gen_command.py:124-129 | with the three keys present, blocked exactly when sexual content is mentioned or violence or gore is "high"; a truthy first answer blocks without the other keys |
| ImageGenCommand.BlocklistFirst | commands/image_gen_command.py:21-26 | a prompt holding a blocked word is blocked whatever the classifier answers; the match is case-sensitive, so "NSFW" goes to the classifier |
| ImageGenCommand.IsBlockedPrompt | commands/image_gen_command.py:21-129 | the loop over the blocklist, then the classifier, gives the specified verdict |
| ImageGenCommand.ErrorReplyExcerpt | commands/image_gen_command.py:178-181 | the error reply quotes a prefix of the service's answer of at most 1700 characters |
| ImageGenCommand.ImageGenCommand.constructor | commands/image_gen_command.py:14-16 | one 3-per-60-s window, no logs, nothing sent |
| ImageGenCommand.ImageGenCommand.GenerateImage | commands/image_gen_command.py:153-181 | a flagged prompt gets the flag reply, and a limited user the rate-limit reply, neither counted; only a request past both checks is registered; then the image under the prompt, the 1700-character excerpt on a missing key, or the escaping error |
| ImageGenCommand.FourPassAtOneInstant | commands/image_gen_command.py:161-165 | checking before registering, the request after k admitted ones at one instant passes exactly when k is at most 3: four pass and the fifth is refused |
| ImageGenCommand.ThreePassAtOneInstant | commands/image_gen_command.py:161-165 | with the corrected check counting the request being made, the request after k admitted ones passes exactly when k is below 3: three pass and the fourth is refused (see also line 16) |
| RootChatHandler.RejectionOrder | chat_handler.py:25-39 | bots and unmentioned messages are dropped silently; then over 500 characters gets the four reactions; then a limited author gets the rate-limit reply; any other message is taken |
| RootChatHandler.Forget | chat_handler.py:63-64 | forgetting removes every entry of the id and keeps all others |
| RootChatHandler.AsWrittenNeverAnswers | chat_handler.py:52 | every accepted message ends in the AttributeError text, whatever the generator would answer |
| RootChatHandler.FixedAnswers | chat_handler.py:52-61 | with the attribute corrected, the final edit carries the answer and the disclaimer, or the generator's error |
| RootChatHandler.ChatHandler.constructor | chat_handler.py:11-22 | a five-window limiter with no logs, empty memories, no actions |
| RootChatHandler.ChatHandler.ShouldProcessMessage | chat_handler.py:25-39 | the result and the actions are the rejection decision; the limiter is only read |
| RootChatHandler.ChatHandler.OnMessage | chat_handler.py:43-65 | a rejected message changes only the actions; an accepted one is registered, memorized, answered with the typing reply and then either memorized with its reply or forgotten together with the reply |
| RootChatHandler.FailureForgetsBoth | chat_handler.py:62-65 | after a failure neither the message nor the reply is remembered, and every other id still is |
| RootChatHandler.ForgetKeepsOrder | chat_handler.py:63-64 | forgetting keeps the remaining ids in order |
| BotSteps.CascadeFirstSuccess | core/bot_workflow/ai_bot.py:27-49 | the cascade succeeds iff some model succeeds; then it returns the first success, every earlier model failed and no later one was tried; otherwise every model was tried and the RuntimeError "all fallbacks failed" is raised |
| BotSteps.CascadeStep | bot_workflow/ai_bot.py:61-81 | one step of the loop: a success returns at once, a failure moves on to the next model name |
| BotSteps.LogEntryShape | bot_workflow/ai_bot.py:37-42 | a log entry starts with the bracketed time and ends with the text and a newline; a non-empty category adds its header line, an empty or absent one adds nothing |
| BotSteps.RegexReplacementsLoop | bot_workflow/ai_bot.py:73-76 | the loop applies the configured replacements one after another, in order, stopping at the first that fails |
| BotSteps.RegexReplacementsCompose | core/bot_workflow/ai_bot.py:62-63 | applying two lists of replacements in turn is the same as applying their concatenation |
| BotSteps.RephraseQuerySplits | bot_workflow/ai_bot.py:96-105 | the rephrase inputs exist iff the history is non-empty; the joined text splits back into the history's texts and the last user is the last message's nick |
| BotSteps.BuildInfoQuery | bot_workflow/ai_bot.py:113-125 | no hits gives None; otherwise the query text built by the loop over the hits |
| BotSteps.InfoTextHolds | bot_workflow/ai_bot.py:121-123 | each hit occurs, after its prefix, at the offset where the earlier hits end |
| BotSteps.SanitizeMsg | kami_chan/kami_chan.py:45-49 | every mention tag is replaced by "@name" in mention order, then the leading bot mention is dropped |
| BotSteps.SanitizeStrDropsLeadingMention | kami_chan/kami_chan.py:51-55 | exactly the leading bot mention is removed, once; text not starting with it is unchanged |
| BotSteps.MentionFreeUnchanged | paper_chan/paper_chan.py:72-82 | text holding no '<' is left unchanged by both sanitizers |
| CoreAiBot.Create | core/bot_workflow/ai_bot.py:23-49 | a prompt error escapes before any model is tried; otherwise the result is the cascade over the default model and then the fallbacks, and each tried request carries the defaults with only the model name changed |
| CoreAiBot.DefaultTriedFirst | core/bot_workflow/ai_bot.py:26-27 | the first request tried uses the default parameters unchanged |
| CoreAiBot.CompletionOnlyLogged | core/bot_workflow/ai_bot.py:51-64 | the main model's completion only goes to the log: two sends that both succeed give the same in-character answer |
| CoreAiBot.EmptyRewriteFailsAll | core/bot_workflow/ai_bot.py:58-61 | when the rewrite step returns nothing, every model fails and the cascade raises "all fallbacks failed" |
| CoreAiBot.AsWrittenRewriteFailsAll | core/bot_workflow/ai_bot.py:58-59 | a rewrite step that raises TypeError, as `PersonalityRewriteStep()` without its `logger` argument does, fails every model, so `create` raises "all fallbacks failed" (see also core/bot_workflow/response_steps.py:9) |
| CoreAiBot.UsableHistoryFinalized | core/bot_workflow/ai_bot.py:66-71 | the usable history is at most the last 14 finalized messages followed by the current message; none of them is pending and all are in memory |
| CoreAiBot.FinalizedSubset | core/bot_workflow/types.py:77-84 | every finalized message is in the memory |
| CoreAiBot.FullPromptShape | core/bot_workflow/ai_bot.py:73-121 | the full prompt holds the base messages with their keys, one message per history entry and one more for an image description; with retrieval enabled, an exception of the rephrase step and then of the info-select step escapes, and an empty result of either raises its RuntimeError; without retrieval neither step's outcome matters |
| CoreAiBot.BuiltFrom | core/bot_workflow/ai_bot.py:81-116 | a built prompt is the profile's messages, then the history's, then the image description's, filled in with the four values now, nick, knowledge and old_memories |
| CoreAiBot.FullPromptBase | core/bot_workflow/ai_bot.py:81-116 | the profile's messages come first in the built prompt, each filled in on its own |
| CoreAiBot.FullPromptContents | core/bot_workflow/ai_bot.py:83-87 | each usable history entry follows the profile's messages in order, as an assistant message exactly for the bot's own, its text filled in, and kept as it is when it has no parenthesis |
| CoreAiBot.FullPromptImageLast | core/bot_workflow/ai_bot.py:107-109 | a non-empty image description is the last message of the built prompt, a user message with its text filled in |
| CoreAiBot.TextMessageFilled | core/bot_workflow/ai_bot.py:85-87 | a role-and-content message keeps its role and has only its content filled in |
| CoreAiBot.PlaceholderFilled | core/bot_workflow/ai_bot.py:111-116 | a placeholder of the four in a message field, between parenthesis-free texts, receives its own value when no value holds a parenthesis; the message keeps its keys |
| CoreAiBot.FillsWellFormed | core/bot_workflow/ai_bot.py:111-116 | the four keys now, nick, knowledge and old_memories are word-character names and pairwise distinct |
| CoreAiBot.DescribeImageBranches | core/bot_workflow/ai_bot.py:123-152 | a description is sought iff there is exactly one image attachment; an NSFW text channel only adds the warning; no attachment does nothing; several get the three reactions and no description |
| LegacyAiBot.ResponseLogger.constructor | bot_workflow/ai_bot.py:34-35 | a new logger has empty text |
| LegacyAiBot.ResponseLogger.Verbose | bot_workflow/ai_bot.py:37-42 | the log gains exactly one entry at its end |
| LegacyAiBot.CreateOrFallback | bot_workflow/ai_bot.py:55-81 | a prompt error escapes; otherwise the answer is the cascade over the given model names, each attempt sending, rewriting and applying the replacements, and the names tried are those up to the first success |
| LegacyAiBot.RewriteNeverSeesCompletion | bot_workflow/ai_bot.py:83-94 | with plain rewrite messages the "((message))" placeholder is left in place, so the rewrite request is the same for every completion that is a valid template (every completion without a backslash is); an invalid one raises its `re` error once some message has an entry |
| LegacyAiBot.PlainMessagesUnchanged | ai_apis/types.py:57-60 | replacing in plain messages changes none of them, or raises the template's error when the completion is invalid and some message has an entry |
| LegacyAiBot.PlainEntriesUnchanged | ai_apis/types.py:52-53 | replacing in a plain message changes none of its entries, or raises the template's error when the completion is invalid and an entry remains |
| LegacyAiBot.InfoSelectQuery | bot_workflow/ai_bot.py:113-135 | no hits iff the step answers None; otherwise the query ends with "QUERY: " and the user query, and each hit follows "INFO:n" at its offset |
| LegacyAiBot.RephraseNeedsHistory | bot_workflow/ai_bot.py:96-101 | with no history the rephrase step raises IndexError |
| KamiChan.DiscordBotResponse.constructor | kami_chan/kami_chan.py:64-67 | a new response has an empty verbose log |
| KamiChan.DiscordBotResponse.LogVerbose | kami_chan/kami_chan.py:69-74 | the verbose log gains exactly one entry at its end |
| KamiChan.FailuresStep | kami_chan/kami_chan.py:100-102 | one loop step: a failure adds its error to the list, a success adds nothing |
| KamiChan.FailuresMatchAttempts | kami_chan/kami_chan.py:76-104 | on success one error is collected per earlier failure; on failure the errors are those of every model, in order |
| KamiChan.CreateOrFallback | kami_chan/kami_chan.py:76-104 | a prompt error escapes; otherwise the answer is the cascade over the model names and the collected errors are the failures before it |
| KamiChan.Create | kami_chan/kami_chan.py:106-107 | the cascade over the three fixed models; at most three errors, and exactly three when all fail |
| KamiChan.GeminiTriedFirst | kami_chan/kami_chan.py:107 | the first model tried is google/gemini-pro-1.5-exp |
| KamiChan.TokenFreeAnswer | kami_chan/kami_chan.py:118-123 | a rewrite with no token is only stripped and loses its "REWRITTEN: " prefix |
| KamiChan.PlusEmojiShape | kami_chan/kami_chan.py:121 | each +1 emoji starts with "<:" and holds no further '<' |
| KamiChan.PlusTokenFilled | kami_chan/kami_chan.py:121-123 | a "<+1>" token between token-free text is replaced by the chosen emoji and nothing else changes |
| KamiChan.FetchLastUserQueryErrors | kami_chan/kami_chan.py:125-141 | an empty memory raises IndexError; a summarizer prompt without the "((user_query))" placeholder raises ValueError |
| KamiChan.SummarizeNoneIffNoHits | kami_chan/kami_chan.py:143-167 | the step returns None iff the search of the sanitized query finds nothing; an answer ends with a newline |
| KamiChan.DescribeImageBranches | kami_chan/kami_chan.py:169-192 | the eyes reaction is added iff there is one image attachment in a safe channel; an NSFW channel gets the warning and no description; an attachment without a content type raises AttributeError; any other count does nothing |
| PaperChan.PaperChan.constructor | paper_chan/paper_chan.py:14-23 | a new bot keeps its id and has an empty memory |
| PaperChan.PaperChan.MemorizeShortTerm | paper_chan/paper_chan.py:67-70 | the sanitized message is appended and the oldest entry dropped when the memory passes five entries |
| PaperChan.RememberedIsLastFive | paper_chan/paper_chan.py:67-70 | memorizing messages one by one from empty keeps exactly the last five, in order |
| PaperChan.ModerationGate | paper_chan/paper_chan.py:28-41 | a flagged message gets the moderation reply with nothing generated; otherwise a prompt error escapes and an answer needs both the prompt and the generation to succeed |
| PaperChan.TokenFreeAnswer | paper_chan/paper_chan.py:59-65 | a rewrite without '[' is returned unchanged |
| PaperChan.PlusTokenFilled | paper_chan/paper_chan.py:60-63 | a "[[+1]]" token between token-free text is replaced by the chosen emoji and nothing else changes |
| PaperChan.BuildQueryText | paper_chan/paper_chan.py:85-87 | the loop builds the query text of the memory |
| PaperChan.QueryTextIsJoin | paper_chan/paper_chan.py:85-87 | for a non-empty memory the query text is a newline followed by the texts joined by newlines |
| PaperChan.SummaryQueryCases | paper_chan/paper_chan.py:98-103 | with no hits the query is just "QUERY: " and the user query; otherwise it is the same info query text the later revisions build |
| PaperChan.DescribeImageBranches | paper_chan/paper_chan.py:111-121 | the eyes reaction is added iff there is one image attachment in a safe channel; an NSFW channel gets the warning; a missing content type raises AttributeError; any other count does nothing |

## Left out

- LLM, moderation, vision and image-service requests are oracle arguments. Their prompts and parameters are passed along, but the network and the OpenAI/OpenRouter clients (`core/ai_apis/client.py`, `ai.py` providers) are not modelled.
- Discord is not modelled: messages, replies, reactions, edits and file attachments become values and action lists. Fetching the replied-to message and the Discord event loop are left out.
- asyncio concurrency is not modelled. Every method runs atomically, which is what the lock of `SynchronizedMessageHistory` gives.
- The clock is the argument `now` (or a time string). `datetime` formatting is not modelled.
- `random.choice` of an emoji is an argument constrained to the listed choices.
- `json.loads`/`json.dumps`, pydantic model validation and `re.sub` with a configured pattern are oracle arguments. The placeholder scan `\(\(\w+\)\)`, the `\b` search and the `re.sub` of `Prompt.replace` in ai_apis/types.py (escaped literal pattern, replacement parsed as a template) are modelled concretely.
- `ApiPrompts.ExpandTemplate`: a `\g<name>` group name is recognised as an identifier by its ASCII letters, digits and underscore only. A non-ASCII name raises `re.error` in the model where Python raises IndexError; both are errors.
- Python's `str.strip`, `split()`, `lower()` and `\w` are Unicode-aware. The model uses their ASCII part.
- The vector database, embeddings (`np.dot` similarity) and long-term memory storage are oracles. `vector_db.py` is not part of this model.
- The root-level `rate_limits` module used by `chat_handler.py` and `commands/image_gen_command.py` is not part of this model. It is taken to be `core/util/rate_limits.py`.
- The `util.environment_vars` module imported by `ai_apis/providers.py:2`, `core/ai_apis/providers.py:2` and `bot_workflow/profile_loader.py:9` is not part of this model. It is taken to be `core/util/environment_vars.py`. The root `providers.py:2` imports the root `environment_vars.py`, whose `get_environment_var` is modelled by `Providers.GetEnvironmentVar` as well.
- The personality-rewrite, rephrase and info-select steps of `core/bot_workflow/response_steps.py` each make one LLM call, so they are oracle arguments of the current revision.
- `CoreAiBot.FullPromptShape`: `core/bot_workflow/ai_bot.py:90` and `:94` build `UserQueryRephraseStep()` and `RelevantInfoSelectStep(user_query=…)` without the `logger` argument that `core/bot_workflow/response_steps.py:9` requires, so as written both raise TypeError. The steps' outcomes are `Result` arguments, so the written behaviour is the case of an `Err(TypeError)` rephrase: with retrieval enabled, `_build_full_prompt` raises TypeError before any model is tried. The same holds for `PersonalityRewriteStep()` at line 58, stated by `CoreAiBot.AsWrittenRewriteFailsAll`.
- `traceback.print_exc`, `print` and console logging are output only and are not modelled.
- `CoreAiBot.Create`: the verbose log written while a reply is generated is not modelled. This is the log a user can later fetch with a log request. Not modelled are the failed model and its error (`core/bot_workflow/ai_bot.py:47`), the completion before the rewrite (`:57`), the knowledge found (`:105`) and the full prompt and memory dumps (`:118-120`). The cascade returns only the answer.
- `LegacyAiBot.CreateOrFallback`: the verbose log written by the older revision (`bot_workflow/ai_bot.py:71`, `:79`, `:93`, `:110`, `:134`, `:174`, `:177`, `:196`) is not modelled either. `LegacyAiBot.ResponseLogger.Verbose` states what one write adds, but the cascade does not say which writes happen.
- `KamiChan.CreateOrFallback`: the failures and the final answer written to the verbose log (`kami_chan/kami_chan.py:94-98`, `:101`) are not modelled. The collected errors are returned, but the log text is not.
- `CoreChatHandler.DiscordChatHandler.RespondWithLlm`: the `verboseLog` of a `Generation` is an argument, not tied to the cascade, so no contract says what the stored log holds. The same holds for `LegacyChatHandler.LegacyDiscordChatHandler.RespondWithLlm`. The handlers only promise that the log they are given is stored under the right id and can be fetched back.
- The prompt assembly (`build_full_prompt`) of the older revision, kami-chan and paper-chan is not modelled. The assembled prompt is an argument of the cascade. The older revision's assembly discards the result of `full_prompt.replace`; kami-chan and paper-chan read fixed prompt files. Only the current revision's `_build_full_prompt` is modelled, as `CoreAiBot.BuildFullPrompt`.
- Reading knowledge files from disk and indexing chunks into the database are I/O and are left out. Only the chunkers are modelled.
- `ImageGenCommand`: left out are the download of the generated image (`requests.get`), the classifier's few-shot example messages and the module-level provider lookup of the constructor.
- `Providers`: the pydantic validator rewrites the value in place; the model returns the new map instead.
- `Providers`: the ValueError branch of `parse_api_key_in_config` cannot be reached.
- `KnowledgeIndex.ChunkTextFixed` and the chunk lemmas require `overlap < chunk_size`. With a larger overlap the source loop does not advance past the text in the same way.
- `RootChatHandler`: kami-chan has no `memorize_short_term` or `forget_short_term`. The handler's short-term memory is modelled as the list of message ids it adds and removes.
- `RootChatHandler.ErrorString`: only the text of RuntimeError and of the missing attribute is modelled. Other exceptions show an unspecified text.
- `MessageParser`: the parser builds its rate limiter with no windows, so an author is never denied as rate limited. The model does the same, and `MessageParser.DenialOrder` states the rule for a limiter that would limit.
- `Providers`: the message for a missing provider has no space before "environment variable". The model keeps the text as written.
- `ImageGenCommand.HasBlockedWord`: matching is case-sensitive, as in the source.
- Several imports of the current revision name modules or classes the repository does not define. `core/bot_workflow/ai_bot.py:2` imports `core.ai_apis.types`, but the module is `core/ai_apis/api_types.py`. Line 3 imports `ResponseLogger`, but `core/bot_workflow/response_logs.py` defines only `ResponseLogsManager`. Line 5 imports `MemorizedMessage` and `MemorizedMessageHistory` from `core/bot_workflow/types.py`, which defines neither. `core/bot_workflow/discord_chat_handler.py:9` imports `AIDiscordBotResponder`, but `core/bot_workflow/ai_bot.py` defines `DiscordBotResponse`. `kami_chan/kami_chan.py:6` imports `AIBotData` and `BotMemory` from the root `ai_bot.py`, which defines only `AIBot`. `paper_chan/paper_chan.py:2` imports `OAICompatibleProvider` and `GPT4Vision`, and `preset_queries.py:1` imports `OAICompatibleProvider`, from `ai.py`, which defines neither. `core/bot_workflow/response_steps.py:5` imports `SimpleDebugLogger`, which `core/bot_workflow/response_logs.py` does not define. As written these imports raise ImportError. The model takes each name to be the class of the same role.
- `CoreAiBot.BuildFullPrompt`: `core/bot_workflow/ai_bot.py:85`, `:87` and `:109` call `full_prompt.append`, but the frozen `Prompt` of `core/ai_apis/api_types.py` has only `plus` (lines 16-17), so as written the first history message or image description raises AttributeError. The model reads `append` as `plus`, with the result kept.
- `CoreChatHandler.DiscordChatHandler.CompleteReply`: the model stores the verbose log in a `ResponseLogsManager` held by the handler. As written, `core/bot_workflow/discord_chat_handler.py:88` calls `ResponseLogsManager.instance()`, which `core/bot_workflow/response_logs.py` does not define. The call raises AttributeError after the reply is memorized and the user message is marked finalized; `handle_error` (lines 149-154) then edits the reply to the error text, and no log is stored.
- `CoreChatHandler.DiscordChatHandler.DeliverReply`: it calls `CompleteReply`, so it shares the repaired `ResponseLogsManager.instance()` call described above.
- `CoreChatHandler.DiscordChatHandler.RespondWithLlm`: it calls `DeliverReply`, so it shares the repaired `ResponseLogsManager.instance()` call described above.
- `LegacyChatHandler.LegacyDiscordChatHandler.MemorizeMessage`: the older handler is modelled over the current revision's `SynchronizedMessageHistory`, with its pending ids, `add_after` and `mark_finalized`. As written, `bot_workflow/discord_chat_handler.py:10` uses the older `CustomBotData` (`bot_workflow/ai_bot.py:14-31`). Its `recent_history` is the older `MemorizedMessageHistory`, whose only insert is `add(message)` (`bot_workflow/types.py:13`). So the call `add(message, pending=…)` at lines 129-132 raises TypeError with nothing changed. That class also has no `add_after`, `mark_finalized`, `long_term_memory` or `profile`.
- `LegacyChatHandler.LegacyDiscordChatHandler.RespondWithLlm`: as written it raises TypeError at line 69, outside the try block, on every message. Nothing is memorized, replied or logged. The model describes the handler with the history repaired as above. It also assumes a `profile.lang` for the typing text (line 70), which the older `CustomBotData` lacks.
- `LegacyChatHandler.LegacyDiscordChatHandler.CompleteReply`: it relies on the repaired history's `add_after` (line 134) and `mark_finalized` (line 89), which the older history does not have.
- `LegacyChatHandler.LegacyDiscordChatHandler.DeliverReply`: it relies on `CompleteReply`'s repairs, and the disclaimer it posts comes from `profile.lang` (line 119), which the older `CustomBotData` lacks; the model takes it as an argument.
- `CoreChatHandler.Dispatch`: `handle_log_request` (`core/bot_workflow/discord_chat_handler.py:50-65`) is modelled only as the dispatch decision. As written, an integer message id reaches `ResponseLogsManager.instance()` at line 54, and its AttributeError is not caught by `except ValueError` at line 63.
- `RootChatHandler.ChatHandler.constructor`: `chat_handler.py:22` calls `KamiChan("Kami-Chan", db_connection, self.bot.user.id)` with three arguments, while `kami_chan/kami_chan.py:21-25` takes four (name, vector_db, provider_store, discord_bot_id). As written the constructor raises TypeError. The model builds the handler as if that call were repaired, and `RootChatHandler.AsWrittenNeverAnswers` is about a handler so built, with the short-term memory calls repaired as well.
- `ImageGenCommand.ImageGenCommand.GenerateImage`: it checks the limiter before registering, as written, so four requests pass in a minute (`ImageGenCommand.FourPassAtOneInstant`). The corrected check, `ImageGenCommand.WouldExceed`, is stated beside it and is not used by the method.

## Findings

| source | as written | input that shows it | evidently intended | confidence | as-written member | corrected member |
|---|---|---|---|---|---|---|
| core/ai_apis/api_types.py:56-57 | `replace_all_in_dict` calls itself on the enclosing dict instead of the nested value, so a dict-valued field recurses until RecursionError | a message `{"role": r, "content": {"text": t}}` | recurse into the nested dict and fill it in | high, not executed | CorePrompts.NestedContent | CorePrompts.FixedAgreesOnStrings |
| ai_apis/types.py:47-48 | `re.escape` is applied to a pattern that is already a regular expression, so it matches the literal backslashes and a "((key))" is never substituted | a prompt "Hi ((nick))" with replacement nick=Bob stays "Hi ((nick))" | substitute the literal "((key))" with its value | high, not executed | ApiPrompts.PlaceholderLeftInPlace | ApiPrompts.FormattedFillsIn |
| core/bot_workflow/knowledge.py:39-43 | `re.search(r'\b', text[end:])` matches at position 0 of the rest whenever it starts with a word character, so the chunk end is not moved and a word is cut | "ab" with chunk size 1 and overlap 0 gives ["a", "b"] | search for the boundary in the whole text from `end`, so the character before `end` counts | medium, not executed | KnowledgeIndex.ChunkTextCutsWords | KnowledgeIndex.FixedChunksEndOnWordEdges |
| knowledge.py:49-51 | when the first word does not fit, the still-empty current chunk is flushed as a chunk | content "a" with chunk size 1 gives ["", "a"] | flush only a non-empty chunk | high, not executed | KnowledgeSplit.EmptyFirstChunk | KnowledgeSplit.FixedChunksNonEmpty |
| bot_workflow/profile_loader.py:64-66 | `safe_get(..., required_type=list[str])` reaches `isinstance(x, list[str])`, which raises TypeError, so `load_profile` never succeeds | any profile whose earlier parameters are present and well typed | check against `list` | high, not executed | ConfigLoader.LoadProfileAlwaysFails | ConfigLoader.LoadProfileFixedLoads |
| chat_handler.py:52 | `DiscordBotResponse(self.paper_chan)` reads an attribute the handler never sets, so, with the constructor call of line 22 and the short-term memory calls repaired, every accepted message ends in the error text | any message that passes the admission checks | use `self.kami_chan` | high, not executed | RootChatHandler.AsWrittenNeverAnswers | RootChatHandler.FixedAnswers |
| commands/image_gen_command.py:161-165 | the limiter is checked before the request is registered and the test is a strict `>`, so the check of the fourth request in a minute sees three and passes | four `/generate_image` requests by one user within a minute: all four are served | count the request being made, so a fourth request within a minute is refused, as the reply "3 / min" says | high, not executed | ImageGenCommand.FourPassAtOneInstant | ImageGenCommand.ThreePassAtOneInstant |
