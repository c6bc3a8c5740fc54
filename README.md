# Chat history buffer of the Matrix chat bot

This project models the deterministic core of the `MatrixChatBot` in `matrix_bot.py`: the
bounded conversation buffer that the chat listener fills, and the code that renders the buffer
into the text passed to the chat model.

- **Buffer** (`History`, `Bot`). `conversation_history` is a `deque(maxlen=10)`. `_handle_message`
  ignores events from other rooms and events whose server timestamp is earlier than the bot's
  start time. It appends a record `{sender, message, timestamp}` for every other event, evicting
  the oldest record when the deque is full. Only after storing does it check whether the bot's
  own account sent the event; such events are stored but get no reply. The class
  `Bot.MatrixChatBot` holds the fields, and `HandleMessage` updates `conversationHistory` in place.
  Its result says which of the four paths the event took. For the reply path it carries the
  prompt that is handed to the model.
- **Renderer** (`Context`). `get_conversation_context` takes the newest `max_messages` records
  using Python's slice rules. It turns each sender id into a name: the text before the first `:`,
  with every `@` removed. A name equal to a non-empty `system_username` is shown as `system`.
  Each record becomes `role: body`, or `[YYYY-MM-DD HH:MM] role: body` when timestamps are
  requested. The lines are joined under a header with `"\n"`. The result is `None` for an empty
  buffer. `_build_conversation_context` asks for ten records, which is the buffer's capacity. It
  substitutes a fixed sentence when there is no history, and otherwise appends a fixed
  reply instruction.
- **Supporting text operations** (`Text`, `Clock`). These cover `split`, `join` and `replace`
  on strings, and `strftime("%Y-%m-%d %H:%M")`. Each has a partner: `Split` and `Join` are
  inverses, and `ParseMinute` and `ParseLine` read rendered text back. The round-trip lemmas
  show that the rendering loses nothing it promises to keep.

The main results:
- `History.AppendAllKeepsNewest` and `Bot.ReplayKeepsNewestAdmitted`: after any stream of
  events, the buffer is exactly the newest ten admitted records, in arrival order.
  `Bot.PromptListsNewestAdmitted` carries this through to the prompt handed to the model.
- `Context.ContextListsNewest`: the context reads back as the header followed by exactly the
  newest `min(max_messages, len)` records, oldest first. Each line gives the record's role, its
  unaltered body and, when requested, its receive minute.
- `Context.BuildEndsWithNewest` and `Bot.ReplyPromptEndsWithIncoming`: the last line before the
  reply instruction is the message that was just received.

The renderer is modelled as written for unusual `max_messages` values. Python's `[-0:]` is the
whole list, so `max_messages == 0` lists every record (`Context.ContextWithZeroListsAll`). A
negative value drops that many of the oldest records. The source itself only ever passes 10.

## Model

| member | source | states |
|---|---|---|
| `Bot.MatrixChatBot.constructor` | matrix_bot.py:13-25 | the configured user id, room id, system username and start time are kept, and the buffer starts empty |
| `Bot.Admits` | matrix_bot.py:59-65 | the two gates: same room id, and a server timestamp (ms) not below the start time (µs); what it admits is stated by `Bot.Next`, `Bot.MatrixChatBot.HandleMessage`, `Bot.AdmitsFromFirstMillisecond` and `Bot.AdmitsLaterEvent` |
| `Bot.AdmitsFromFirstMillisecond` | matrix_bot.py:63-65 | an event in the configured room is admitted exactly when its server timestamp is at least the start time rounded up to whole milliseconds |
| `Bot.AdmitsLaterEvent` | matrix_bot.py:63-65 | admission is monotone in time: an event no earlier than an admitted one, in the same room, is admitted too |
| `Bot.RecordOf` | matrix_bot.py:69-74 | the stored entry: the event's sender, its body and the local receive time; `Bot.Next` and `Bot.ReplayKeepsNewestAdmitted` state that exactly these records enter the buffer |
| `Bot.MatrixChatBot.HandleMessage` | matrix_bot.py:57-81 | an event from another room, or one with `server_timestamp * 1000 < start` (in microseconds), leaves the buffer unchanged and is ignored. Any other event is appended with deque eviction. An event from the bot's own user id is stored but not answered. Every other stored event yields the prompt `_build_conversation_context` computes from the new buffer |
| `Bot.Next` | matrix_bot.py:57-74 | a rejected event leaves the buffer unchanged; an admitted one ends up as the newest record; the buffer stays within capacity |
| `Bot.Replay` | matrix_bot.py:57-74 | handling any stream of events keeps the buffer within its capacity of 10 |
| `Bot.ReplayIsAppendAll` | matrix_bot.py:60-74 | handling a stream is the same as appending, in order, only the records of the events that pass both gates |
| `Bot.ReplayKeepsNewestAdmitted` | matrix_bot.py:60-74 | after any stream of events, the buffer is exactly the newest ten admitted records in arrival order; rejected and evicted records are absent |
| `Bot.PromptListsNewestAdmitted` | matrix_bot.py:57-192 | from a fresh bot, the prompt after any stream of events is the header, the lines of the newest ten admitted messages oldest first, and the reply instruction; no rejected or evicted message appears |
| `Bot.ReplyPromptEndsWithIncoming` | matrix_bot.py:70-81 | the prompt built after an admitted message ends with that message's line, followed by the reply instruction |
| `History.Last` | matrix_bot.py:166 | the newest `min(n, len)` elements, as a suffix of the input |
| `History.BoundedAppend` | matrix_bot.py:70-74 | `deque(maxlen=cap).append`: below capacity the record is added at the end; at capacity exactly the oldest record is dropped and the rest keep their order with the new record last; the length never exceeds `cap` |
| `History.BoundedAppendIsLast` | matrix_bot.py:25 | one append leaves the newest `cap` elements of the old contents followed by the new record |
| `History.AppendAll` | matrix_bot.py:25 | any number of appends keeps the buffer within capacity |
| `History.LastOfLast` | matrix_bot.py:25 | keeping the newest `n` before further appends does not change which `n` survive |
| `History.AppendAllKeepsNewest` | matrix_bot.py:25 | after appending any sequence, the buffer is the newest `cap` records of old contents plus arrivals, in arrival order |
| `History.FromEmpty` | matrix_bot.py:25 | from an empty buffer, `n` arrivals leave exactly the last `min(n, 10)` of them |
| `Text.PrefixBefore` | matrix_bot.py:170 | `s.split(c)[0]`: the longest prefix of `s` without `c`, ended by the first `c` when there is one |
| `Text.PrefixBeforeFirst` | matrix_bot.py:170 | the prefix ends exactly at the first separator |
| `Text.PrefixBeforeAbsent` | matrix_bot.py:170 | text without the separator is its own first field |
| `Text.Split` | matrix_bot.py:170 | `split` yields at least one part, the first being the prefix before the first separator, and no part contains the separator |
| `Text.Join` | matrix_bot.py:185 | `"\n".join(lines)`; its meaning is stated by `Text.JoinStartsWithFirst`, `Text.JoinSnoc`, `Text.JoinEndsWithLast`, `Text.SplitJoin` and `Text.JoinSplit` |
| `Text.JoinStartsWithFirst` | matrix_bot.py:185 | a join of two or more lines starts with the first line and a line break |
| `Text.JoinSnoc` | matrix_bot.py:185 | joining one more line appends a line break and that line |
| `Text.JoinEndsWithLast` | matrix_bot.py:185 | a join of two or more lines ends with a line break and the last line |
| `Text.SplitJoin` | matrix_bot.py:185 | splitting `"\n".join(lines)` recovers the lines when none contains a line break |
| `Text.JoinSplit` | matrix_bot.py:185 | joining the parts of a split gives back the original text |
| `Text.RemoveAll` | matrix_bot.py:170 | `replace(c, "")` leaves no `c` |
| `Text.RemoveAllCounts` | matrix_bot.py:170 | `replace(c, "")` removes every `c` and keeps every other character as many times as it occurred |
| `Text.RemoveAllAbsent` | matrix_bot.py:170 | text without `c` is unchanged |
| `Text.RemoveAllKeeps` | matrix_bot.py:170 | a character other than `c` is in the result exactly when it is in the input |
| `Text.RemoveAllConcat` | matrix_bot.py:170 | removal works piecewise over concatenation, so the surviving characters keep their original order |
| `Text.RemoveAllSingle` | matrix_bot.py:170 | a single character survives exactly when it is not the removed one |
| `Clock.Digits` | matrix_bot.py:180 | zero padding yields exactly `width` decimal digits |
| `Clock.DigitsValueOfDigits` | matrix_bot.py:180 | the padded digits denote the number that was written |
| `Clock.FormatMinute` | matrix_bot.py:180 | `%Y-%m-%d %H:%M` is always 16 characters |
| `Clock.ParseFormatMinute` | matrix_bot.py:180 | the rendered stamp reads back as the year, month, day, hour and minute of the receive time |
| `Clock.FormatMinuteInjective` | matrix_bot.py:180 | two stamps are equal exactly when the date-times agree down to the minute |
| `Clock.FormatMinuteSingleLine` | matrix_bot.py:180 | a stamp contains no line break |
| `Context.SenderName` | matrix_bot.py:170 | the display name contains neither `:` nor `@` |
| `Context.SenderNameFromSplit` | matrix_bot.py:170 | the name is `sender.split(":")[0].replace("@", "")` |
| `Context.SenderNameOfMatrixId` | matrix_bot.py:170 | a Matrix id `@local:server` is shown as `local` |
| `Context.SenderNameIdempotent` | matrix_bot.py:170 | normalising an already normalised name changes nothing |
| `Context.IsSystemAccount` | matrix_bot.py:173 | Python truthiness of `system_username`: an absent or empty setting matches nobody, otherwise exact equality with the name; used by `Context.RoleIsSystem` and `Context.RolesCollideOnlyOnSystem` |
| `Context.Role` | matrix_bot.py:172-176 | `system` for the system account, the name otherwise; stated by `Context.RoleIsSystem` |
| `Context.RoleIsSystem` | matrix_bot.py:172-176 | the role is `system` exactly when the name equals a non-empty `system_username`, or the name is itself `system`; any other role is the name |
| `Context.SystemAccountShownAsSystem` | matrix_bot.py:170-176 | messages sent from `@<system_username>:server` are attributed to `system` |
| `Context.RolesCollideOnlyOnSystem` | matrix_bot.py:172-176 | two different names share a role only when one is the system account and the other is a user literally named `system` |
| `Context.ParseRoleAndBodyOf` | matrix_bot.py:183 | `role: body` splits back into role and body when the role has no colon |
| `Context.StampedLineParses` | matrix_bot.py:181 | `[stamp] role: body` reads back as its stamp, role and body |
| `Context.StampPrefix` | matrix_bot.py:178-181 | with timestamps, exactly 19 characters: `[`, a stamp that reads back as the receive minute, then `] `; without, nothing |
| `Context.RenderLine` | matrix_bot.py:178-183 | `[stamp] role: body` or `role: body`; stated by `Context.RenderLineParses` and `Context.RenderLineSingleLine` |
| `Context.RenderLineParses` | matrix_bot.py:178-183 | every line reads back as its record's role, its unaltered body and, with timestamps, its receive minute |
| `Context.SenderNameSingleLine` | matrix_bot.py:170 | a sender id without line breaks gives a name without line breaks |
| `Context.RenderLineSingleLine` | matrix_bot.py:178-183 | a record whose sender id and body have no line break renders to one line |
| `Context.RecentMessages` | matrix_bot.py:166 | for `max_messages >= 1`, the newest `min(max_messages, len)` records; for 0, the whole buffer (Python's `[-0:]`); for negative `k`, the buffer without its `-k` oldest records |
| `Context.SliceStart` | matrix_bot.py:166 | a Python slice start always lies within the sequence |
| `Context.Lines` | matrix_bot.py:169-183 | one line per record |
| `Context.LinesAt` | matrix_bot.py:169-183 | the `i`-th line renders the `i`-th record, so lines keep the buffer's order |
| `Context.LinesSingleLine` | matrix_bot.py:169-183 | every line is a single line when the records' sender ids and bodies are |
| `Context.GetConversationContext` | matrix_bot.py:162-163 | the result is `None` if and only if the buffer is empty |
| `Context.ContextIsNewestLines` | matrix_bot.py:165-185 | for `max_messages >= 1`, the context is the header joined with the lines of the newest `min(max_messages, len)` records |
| `Context.ContextWithZeroListsAll` | matrix_bot.py:166 | `max_messages == 0` lists the whole buffer |
| `Context.ContextPartsSingleLine` | matrix_bot.py:167-183 | the header and every rendered line are single lines when the records are |
| `Context.ContextListsNewest` | matrix_bot.py:162-185 | the context splits into the header plus exactly `min(max_messages, len)` lines, the newest records oldest first, each reading back as its role, body and receive minute |
| `Context.BuildConversationContext` | matrix_bot.py:187-192 | the prompt is `No previous conversation history.` if and only if the buffer is empty |
| `Context.BuildListsWholeBuffer` | matrix_bot.py:189 | because 10 equals the capacity, the prompt lists every buffered record, followed by the reply instruction |
| `Context.BuildEndsWithNewest` | matrix_bot.py:187-192 | the prompt ends with a line break, the newest record's line and the reply instruction |

## Left out

- The Matrix transport is not modelled: `AsyncClient`, login, `sync_forever`, the login and sync callbacks, `start`/`stop` and `room_send`. This is network I/O through a library.
- The model call is not modelled: `Agent`, `Runner.run`, the MCP memory server and the `mcp_available` check. `HandleMessage` returns the prompt it would hand to the model. Whether a reply is actually sent depends on those foreign calls.
- The asyncio task wrapper is not modelled: `message_callback`, `_task_done_callback`, the catch-all `except` and its apology message. They exist for concurrency and error logging. Events are handled one at a time, in order.
- The memory-lifecycle, deduplication and relevance rules are not modelled. They exist only as prompt text. `main.py` and `agent_hooks.py` are not part of this model: `main.py` wraps a single model call behind HTTP, and `agent_hooks.py` only logs.
- Clock readings are parameters: `datetime.now()` at start-up and at the moment a record is stored. The start time is given in integer microseconds since the epoch. The gate compares `server_timestamp * 1000` with that value. This is exactly `server_timestamp < start_time.timestamp() * 1000` over the reals. Floating-point rounding of `timestamp() * 1000` is not modelled.
- The stored timestamp is the date-time record itself. The ISO text written by `isoformat()` and read back by `fromisoformat()` is not modelled, and that round trip is taken to preserve the date and time.
- `Clock.FormatMinute`: years below 1000 are padded to four digits. Some platforms' `strftime("%Y")` do not pad them. `datetime.now()` never yields such a year.
- `Bot.MatrixChatBot.HandleMessage`: compares the sender with the configured user id. The transport library may replace `client.user_id` with the id the server returns at login. That replacement is not modelled.
- `Context.ContextListsNewest`: stated only for sender ids and bodies without line breaks. A body containing `\n` makes the joined text ambiguous to split back into records. `Context.ContextIsNewestLines` and `Context.BuildListsWholeBuffer` state the result for all records, but without decoding it.
- The deque is modelled as a sequence field that is reassigned, not as the ring structure CPython uses internally.
- The `homeserver`, `password` and `run_config` fields are not modelled. They only feed the transport and the model call.
