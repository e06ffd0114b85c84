# Chat and alert core of the psychological-support backend

This project models the chat and alert core of a FastAPI backend. The backend connects administrators (`ADMINISTRADOR`) with psychologists (`PSICOLOGO`). The model is written in Dafny and covers the following:

- **Chat tables.** Conversations are keyed by the directional pair (admin, psicologo). Each has a 500-character summary of its last message. Messages carry a read flag.
- **Chat service.** Get-or-create of a conversation, the participant check, paged history, message creation, bulk mark-as-read, and the per-role listing with unread counts.
- **HTTP endpoints.** Role dispatch, the 403 participant gates, the mapping of service errors to 400, and the `new_message` push.
- **Connection registry.** The in-process websocket registry: connect, disconnect, and broadcast with pruning of failed sockets.
- **Websocket endpoint.** A state machine: accept, close with 4401 or 4403, register, ping/pong, deregister.
- **Alert intake.** The sanitiser that removes content-filter lines, the notification title, and the fan-out to every admin and psicologo.

Modules, one file each:

| module | file | what it holds |
|---|---|---|
| `Wrappers` | wrappers.dfy | `Option` and `Result` |
| `Text` | text.dfy | Python's `s[:n]`, `lower`, `in`, `strip`, `splitlines` and `"\n".join`, each with a reference meaning |
| `ChatModel` | chat_model.dfy | records, the store and the store invariant `Valid` |
| `ChatService` | chat_service.dfy | the service functions |
| `ChatConnections` | ws_registry.dfy | the connection registry |
| `ChatController` | chat_controller.dfy | the HTTP endpoints |
| `ChatSocket` | chat_socket.dfy | the websocket endpoint |
| `Alerts` | alerts.dfy | the alert intake |

The database is a value of type `Store`:

- a map from conversation id to `Conversation`;
- the `Mensajes` rows as a sequence, in insertion order;
- two counters that stand for the primary-key sequences.

Every service call returns a new store. The current time is a parameter `now`.

## Model

| member | source | states |
|---|---|---|
| ChatModel.Valid | app/models/chat.py:17-77 | The integrity rules of the two tables: <br>• the unique (id_admin, id_psicologo) pair; <br>• every message belongs to an existing conversation; <br>• the summary fits 500 characters; <br>• ids come from increasing sequences; <br>• insertion order agrees with creation time. |
| ChatModel.EmptyStoreValid | app/models/chat.py:17-77 | Empty tables satisfy every integrity rule. |
| ChatService.GetConversation | app/services/chat.py:110-118 | Some exactly when the id exists, and then it is that row. |
| ChatService.GetConversationParticipants | app/services/chat.py:201-208 | None for an unknown id. Otherwise it returns the row's (admin, psicologo) pair. |
| ChatService.IsUserInConversation | app/services/chat.py:121-128 | True exactly when the conversation exists and the user is its admin or its psicologo. |
| ChatService.ParticipantsAgree | app/services/chat.py:121-128 | The participant predicate holds exactly when the user is one of the pair returned by the participants lookup. |
| ChatService.FindByPair | app/services/chat.py:17-24 | Returns a conversation with the pair when one exists below the bound. When it returns none, no conversation below the bound has the pair. |
| ChatService.GetOrCreateConversation | app/services/chat.py:12-34 | The returned id always names a conversation with the requested pair, and messages are untouched. The store is either unchanged, or gains exactly one fresh conversation with the next id. Under `Valid`, the store is unchanged exactly when the pair already existed. |
| ChatService.GetOrCreateReturnsExisting | app/services/chat.py:26-27 | An existing conversation of the pair is the one returned, with no write. |
| ChatService.GetOrCreateIdempotent | app/services/chat.py:12-34 | A second call for the same pair returns the first call's conversation and changes nothing. |
| ChatService.GetOrCreatePreservesValid | app/services/chat.py:29-34 | Creating a conversation keeps the unique-pair constraint and every other table rule. |
| ChatService.MessagesOf | app/services/chat.py:137 | A message is in the result exactly when it is in the table and belongs to the conversation. |
| ChatService.MessagesOfAppend | app/services/chat.py:137 | Appending a row extends exactly the history of that row's conversation. |
| ChatService.MessagesOfChronological | app/services/chat.py:138 | A conversation's history inherits the table's ascending creation order. |
| ChatService.InsertByTime | app/services/chat.py:138 | Inserting a message into a sequence adds exactly that message and keeps every other one. |
| ChatService.InsertByTimeSorted | app/services/chat.py:138 | Inserting into a sequence in creation order keeps it in creation order, and it is a permutation plus the new message. |
| ChatService.SortByTime | app/services/chat.py:138 | The sort keeps the length and exactly the messages it was given. |
| ChatService.SortByTimeSorted | app/services/chat.py:138 | The sorted sequence is in ascending creation time and is a permutation of the input. |
| ChatService.SortByTimeKeepsChronological | app/services/chat.py:138 | A sequence already in creation order is left unchanged, so rows with equal `created_at` keep their store order. |
| ChatService.History | app/services/chat.py:136-138 | A conversation's messages as `ORDER BY created_at` returns them: each of its messages once, in ascending creation time. |
| ChatService.HistoryInStoreOrder | app/services/chat.py:136-138 | On a consistent store the sorted history is the history in store order. |
| ChatService.Window | app/services/chat.py:139-140 | `OFFSET skip LIMIT limit`: at most `limit` rows starting after the first `skip`, empty past the end. |
| ChatService.WindowsConcatenate | app/services/chat.py:139-140 | Adjacent windows join into the window that covers both. |
| ChatService.ListMessages | app/services/chat.py:131-143 | Returns the window of the conversation's history, sorted by creation time, that starts at `skip`. Its length is min(limit, remaining), and it is empty past the end. Every message on the page belongs to the conversation. |
| ChatService.ListMessagesAscending | app/services/chat.py:138 | Every page is in ascending `created_at` order, whatever order the rows were stored in. |
| ChatService.PagesConcatenate | app/services/chat.py:139-140 | The page (skip, n) followed by the page (skip+n, k) is the page (skip, n+k). |
| ChatService.LastMessageSummary | app/services/chat.py:171 | The summary is a prefix of the text of at most 500 characters. It equals the text when the text is at most 500 long, and is exactly 500 long otherwise. |
| ChatService.CreateMessage | app/services/chat.py:146-176 | Returns "Conversation not found" exactly when the id is unknown. Returns "Sender or receiver not in conversation" exactly when the sender or the receiver is outside the pair; the two are checked separately. On success it appends exactly one unread message with the next id, sets the conversation's updated_at and last_message_at to `now` and its summary to the truncated text, and leaves every other conversation untouched. |
| ChatService.CreateMessagePreservesValid | app/services/chat.py:159-176 | With a clock that does not run backwards, creating a message keeps every table rule. |
| ChatService.CreateMessageExtendsHistory | app/services/chat.py:159-166 | The new message ends its conversation's history, and every other history is unchanged. |
| ChatService.UnreadCount | app/services/chat.py:51-57 | Zero exactly when no message of the conversation addressed to the user is unread. |
| ChatService.UnreadCountAppend | app/services/chat.py:51-57 | An appended row adds one to the count exactly when it is unread and addressed to that user in that conversation. |
| ChatService.CreateMessageUnread | app/models/chat.py:77 | A new message raises its receiver's unread count in that conversation by one, because is_read defaults to false. Every other (conversation, user) count is unchanged. |
| ChatService.MarkAll | app/services/chat.py:185-195 | Each row is set read exactly when it is an unread row of the conversation addressed to the user. |
| ChatService.MarkAllChangesUnreadRows | app/services/chat.py:196-198 | The number of rows the update changes equals the unread count before the update. |
| ChatService.MarkMessagesAsRead | app/services/chat.py:179-198 | Marks exactly the matching unread rows, changes nothing else, and leaves no unread row for that user in that conversation. The returned count is the number of changed rows. |
| ChatService.MarkReadCountsUnread | app/services/chat.py:198 | The returned row count is the unread count before the call. |
| ChatService.MarkReadIdempotent | app/services/chat.py:179-198 | Repeating the call immediately returns 0 and leaves the store as it was. |
| ChatService.MarkAllKeepsOtherCounts | app/services/chat.py:187-193 | Marking one (conversation, user) leaves every other unread count unchanged. |
| ChatService.MarkReadKeepsOtherCounts | app/services/chat.py:187-193 | The same, stated for the service call. |
| ChatService.MarkReadPreservesValid | app/services/chat.py:179-198 | Marking as read keeps every table rule. |
| ChatService.InsertByRecency | app/services/chat.py:66 | Inserting a row into a list sorted by updated_at descending keeps it sorted, adds exactly that row, and keeps ids distinct. |
| ChatService.ListConversationsForUser | app/services/chat.py:37-107 | Lists the caller's conversations: admins by the admin column, everyone else by the psicologo column. A conversation is included only when the counterpart's user row exists (the inner join). Every conversation that qualifies appears exactly once, and each row carries the counterpart's "nombre apellido" and the caller's unread count. The list is ordered by updated_at descending. |
| ChatConnections.EmptyRegistry | app/core/ws_chat.py:8-10 | The registry starts with no socket in any room and no empty room. |
| ChatConnections.Connect | app/core/ws_chat.py:12-14 | The room gains the socket and is created when missing. Other rooms are unchanged. The no-empty-room invariant is kept. |
| ChatConnections.Disconnect | app/core/ws_chat.py:16-24 | The room loses the socket and is dropped once emptied. A socket that is not in the room changes nothing. A missing or already empty room is left as it is. Other rooms are unchanged. |
| ChatConnections.DisconnectUndoesConnect | app/core/ws_chat.py:12-24 | Disconnecting a socket that was just connected restores the registry. |
| ChatConnections.ConnectDisconnectIdempotent | app/core/ws_chat.py:12-24 | Connecting twice is the same as connecting once, and disconnecting twice is the same as disconnecting once. |
| ChatConnections.Broadcast | app/core/ws_chat.py:26-36 | Every socket of the room except the failing ones is reached. Exactly the failing ones are removed afterwards. The room is dropped when that empties it. Other rooms are unchanged. |
| ChatController.GetUserWithRole | app/controllers/chat.py:104-115 | Returns the user's row when the user exists, and 404 "User not found" otherwise. |
| ChatController.ConversationPair | app/controllers/chat.py:125-158 | An admin naming a psicologo gives (caller, target). A psicologo naming an admin gives (target, caller). An admin naming a non-psicologo gives 400 "Target user must be a psicologo"; a psicologo naming a non-admin gives 400 "Target user must be an admin". An unknown caller or target gives 404. Any other caller role gives 403 without looking up the target. |
| ChatController.PairIsSymmetric | app/controllers/chat.py:131-153 | An admin and a psicologo naming each other get the same (admin, psicologo) pair. |
| ChatController.CreateOrGetConversation | app/controllers/chat.py:118-164 | Fails exactly as the dispatch fails. On success the result is exactly the service's get-or-create for the dispatched pair: the existing conversation with the store unchanged, or a new one added. The caller and the target are its two sides, and no message changes. |
| ChatController.BothSidesMeet | app/controllers/chat.py:118-164 | An admin's call and the psicologo's later call land on the same conversation, and the second call writes nothing. |
| ChatController.Details | app/controllers/chat.py:183-196 | The counterpart's name goes into psicologo_nombre for admins and into admin_nombre otherwise; the other name column is empty. |
| ChatController.ListConversations | app/controllers/chat.py:167-199 | Returns 404 exactly for an unknown caller. Otherwise it returns the role-filtered, complete, duplicate-free, most-recent-first listing, with unread counts. The counterpart's name sits in the column of its role, and the caller's own column is empty. |
| ChatController.GetMessages | app/controllers/chat.py:202-229 | Returns 403 "Not authorized to view this conversation" exactly for non-participants. Otherwise it returns the service page. |
| ChatController.GetDefaultMessages | app/controllers/chat.py:203-209 | Without `skip` and `limit` the page is the first 100 messages of the sorted history, or all of them when there are fewer; non-participants get 403. |
| ChatController.SendMessage | app/controllers/chat.py:232-283 | Returns 403 exactly for a non-participant caller. A participant caller naming a receiver outside the pair gets exactly 400 "Sender or receiver not in conversation", and that is the only possible 400. A failure stores and pushes nothing. A success stores the message and pushes one `new_message` event carrying it to every non-failing socket of the room. The failing sockets are dropped and other rooms are untouched. A room leaves the registry only when this send emptied it, and the registry still holds no empty room. |
| ChatController.MarkAsRead | app/controllers/chat.py:286-307 | Returns 403 "Not authorized" exactly for non-participants. Otherwise the store is the one the service call leaves, the marked count is the caller's previous unread count, and none remains. |
| ChatController.SendThenReadClearsUnread | app/controllers/chat.py:255-307 | A sent message raises the receiver's unread count by one and, when the sender is not the receiver, leaves the sender's count unchanged. When the receiver then marks the conversation read, the call reports all of those messages and leaves none unread. |
| ChatSocket.Authenticate | app/controllers/chat.py:319-329 | A user id is produced exactly when the token decodes, carries a `sub` claim, and `int(sub)` succeeds (usually on a numeric string such as "12"). The id is the value `int(sub)` yields. |
| ChatSocket.Open | app/controllers/chat.py:315-344 | The handler always accepts the socket first. A token naming no user closes it with 4401, and the registry is untouched. A non-participant closes it with 4403, and the registry is untouched. Otherwise the socket is registered in the room and the loop starts. |
| ChatSocket.RefusalIgnoresStore | app/controllers/chat.py:319-329 | The 4401 refusal does not depend on the tables. |
| ChatSocket.OpenRegistersOnlyParticipants | app/controllers/chat.py:331-344 | The socket joins its room exactly when both checks pass. |
| ChatSocket.Receive | app/controllers/chat.py:346-354 | A "ping" frame is answered with one pong, and any other frame is ignored. A client disconnect deregisters the socket and ends the session. Any other failure ends the session and leaves the socket registered. |
| ChatSocket.FirstEnd | app/controllers/chat.py:346-354 | None exactly when every event is a text frame. Otherwise it is the event at some position that is a disconnect or failure and has only text frames before it. |
| ChatSocket.Run | app/controllers/chat.py:346-354 | The receive loop: events are handled in order. Its behaviour is stated by EndedIsFinal, OnePongPerPing and LoopOutcome. |
| ChatSocket.EndedIsFinal | app/controllers/chat.py:346-354 | After the loop has ended, further events change nothing. |
| ChatSocket.OnePongPerPing | app/controllers/chat.py:347-352 | The session writes exactly one pong per "ping" before the first disconnect or failure, and nothing else. |
| ChatSocket.LoopOutcome | app/controllers/chat.py:346-354 | The final phase and registry depend only on the first ending event. A disconnect deregisters the socket; any other failure does not. |
| ChatSocket.SessionLifecycle | app/controllers/chat.py:310-354 | A registered socket passed both checks. It is gone from its room after a client disconnect, and is still there after any other failure. |
| Text.Take | app/services/chat.py:171 | Python's `s[:n]`: the prefix of length min(n, len(s)). |
| Text.Lower | app/controllers/alertas.py:33 | `ln.lower()`, character by character. |
| Text.ContainsIsOccurs | app/controllers/alertas.py:33 | The substring test `key in s` agrees with "key starts at some index of s". |
| Text.StripBounds | app/controllers/alertas.py:35 | Python's `strip` keeps a slice. Everything outside it is whitespace, and a nonempty slice neither starts nor ends with whitespace. |
| Text.StripTrims | app/controllers/alertas.py:35 | The stripped text is trimmed, and a trimmed text is its own strip. |
| Text.SplitLines | app/controllers/alertas.py:32 | Python's `splitlines` produces pieces without line breaks, and at least one piece for a nonempty text. What the pieces hold is stated by JoinSplitLinesNormalizes. |
| Text.JoinSplitLinesNormalizes | app/controllers/alertas.py:32-35 | Joining the pieces with "\n" gives the text with every break ("\r\n" counted as one) replaced by "\n", less one final break when the text ends in a break. The pieces are break-free, so this fixes each piece. |
| Text.JoinSplitLines | app/controllers/alertas.py:32-35 | Joining the pieces with "\n" gives back a text whose only break is "\n" and that does not end in one. |
| Text.JoinedLinesBreaks | app/controllers/alertas.py:35 | Break-free lines joined with "\n" have "\n" as their only break. |
| Text.OccursInJoinedLines | app/controllers/alertas.py:33-35 | A newline-free key in the lower-cased joined text occurs in some lower-cased line. |
| Text.OccursInSplitLine | app/controllers/alertas.py:32-33 | A key in a lower-cased line from `splitlines` occurs in the lower-cased input. |
| Alerts.KeptLines | app/controllers/alertas.py:30-34 | A line is kept exactly when it is in the input and no marker occurs in its lower-cased form. Kept lines stay in order. |
| Alerts.KeptLinesAppend | app/controllers/alertas.py:30-34 | Filtering a concatenation is the concatenation of the filtered parts, so kept lines keep their order and their multiplicity. |
| Alerts.KeptLinesSingle | app/controllers/alertas.py:30-34 | A single line is kept exactly when it is not blocked. |
| Alerts.KeptLinesAll | app/controllers/alertas.py:30-34 | When no line is blocked, every line is kept. |
| Alerts.IsBlocked | app/controllers/alertas.py:33 | A line is blocked when its lower-cased form contains either marker. |
| Alerts.Sanitize | app/controllers/alertas.py:21-35 | An empty text is returned as is. Otherwise the kept lines are joined with "\n" and stripped. Its meaning is stated by SanitizeRemovesMarkers, SanitizedShape, SanitizeKeepsCleanText and SanitizeIdempotent. |
| Alerts.FilterKeysShape | app/controllers/alertas.py:15-18 | Both markers are nonempty and free of newlines. |
| Alerts.SanitizeRemovesMarkers | app/controllers/alertas.py:21-35 | For every input, the lower-cased sanitised text contains neither marker. |
| Alerts.SanitizeKeepsCleanText | app/controllers/alertas.py:21-35 | A trimmed text with only "\n" breaks and no blocked line is returned unchanged. |
| Alerts.SanitizedShape | app/controllers/alertas.py:21-35 | The sanitised text has "\n" as its only line break, and it has no leading or trailing whitespace. |
| Alerts.SanitizeIdempotent | app/controllers/alertas.py:21-35 | Sanitising twice equals sanitising once. |
| Alerts.StudentName | app/controllers/alertas.py:59 | `f"{nombre} {apellido}".strip()`. |
| Alerts.Preview | app/controllers/alertas.py:73 | The first 80 characters, followed by "..." exactly when the text is longer than 80. |
| Alerts.TituloBase | app/controllers/alertas.py:71-76 | The title is a prefix of the full title of at most 255 characters. It is the whole full title when that fits, and exactly 255 characters otherwise. |
| Alerts.TitleMarksCutPreview | app/controllers/alertas.py:71-76 | A title that fits ends in "..." when the preview was cut. Otherwise it shows the whole preview. |
| Alerts.PreviewSource | app/controllers/alertas.py:61-69 | The sanitised `mensaje_original` for a JSON object holding one, the stored text re-sanitised when it is not JSON, and the stored text otherwise. |
| Alerts.PreviewSourceClean | app/controllers/alertas.py:61-69 | Whatever the JSON probe finds, the previewed text contains no marker. When the stored text is not JSON, re-sanitising it changes nothing. |
| Alerts.RoleId | app/controllers/alertas.py:80-82 | `roles.get(name)`: present exactly when the role name is in the table. |
| Alerts.UsersWithRole | app/controllers/alertas.py:86-92 | A user is listed exactly when the query returned it with that role id. |
| Alerts.TargetUsers | app/controllers/alertas.py:84-92 | A user is a target exactly when it holds the admin role or the psicologo role. Each role counts only when its id is present and nonzero. |
| Alerts.Notify | app/controllers/alertas.py:94-127 | Exactly one notification per distinct target, all with the same title and student. Each is followed by a `notification_new` push and an `alerta_nueva` push to that user. |
| Alerts.CreateAlert | app/controllers/alertas.py:41-129 | Returns "Estudiante no encontrado" exactly when the student is unknown. Otherwise it stores the sanitised text, builds the title from the stripped student name and the preview, and notifies every target exactly once. Every notification carries the student's id and the title, and is followed by its `notification_new` and then its `alerta_nueva` push to the same user. |

## Left out

- Persistence: SQL sessions, commits, refreshes and async scheduling are out of scope; each call is one atomic transition of the store. The race between the lookup and the insert in get-or-create is left out for the same reason: it surfaces as a unique-constraint error, and the code does not retry.
- Concurrency: the model has no concurrent coroutines. `Run` threads one registry through the whole session, so `LoopOutcome` and `SessionLifecycle` assume that no other request changes the registry while the session is open. For example, another request's broadcast may drop this socket after a failed send.
- Clock: time is an abstract integer supplied by the caller. `Valid` includes creation-time order of the message table, so `ChatService.CreateMessagePreservesValid` assumes a clock that does not run backwards. `ChatService.ListMessages` sorts by creation time and does not depend on that assumption.
- Database-generated defaults: `created_at` and `updated_at` are modelled as taking the caller's `now`.
- Token check: JWT signature checking and the decoding of the token are inputs (`TokenDecoding`). The same goes for Python's `int(sub)`: it appears only through its outcome, an integer or an error.
- HTTP plumbing: the `get_current_user` check in front of the HTTP endpoints, the request bodies and the pydantic schemas are not modelled, and neither is the framework rejecting a websocket without a `token` query parameter before the handler runs. The caller's id is a parameter.
- List endpoints: `list_psicologos` and `list_admins` are plain role-filtered listings, and they are not part of this model.
- Sockets: wire frames and JSON payloads are not modelled. The push is a `PushEvent` holding the message. A failed `send_json` inside the ping loop looks the same to the model as the next receive failing.
- Alert storage: storing the `Alerta` and `Notificacion` rows is not modelled, and neither is `manager.send_to_user`. Notify returns the rows and pushes it would produce.
- JSON parsing: the parse of the stored alert text is an input (`JsonProbe`). A `mensaje_original` that is not a string is not modelled. An empty list passes through alertas.py:28-29 unchanged and appears as "[]" in the title; other non-string values make the code raise.
- Text.Lower: implements Python's `str.lower` only for the ASCII and Latin-1 capital letters. Other scripts, and mappings that change a string's length, are not covered.
- Other alert endpoints: `listar_alertas`, `obtener_alertas_estudiante` and `eliminar_alerta` are plain queries, and they are not part of this model.
- Cascade deletes of users and conversations: the core never issues a delete, so they are not modelled.
- Negative `skip` or `limit`: the model takes them as natural numbers. SQL's behaviour for negative OFFSET and LIMIT depends on the engine.
- ChatService.ListMessages: the sort is stable, so rows with equal `created_at` come back in insertion order. The SQL `ORDER BY created_at` leaves that order unspecified.
