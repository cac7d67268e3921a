# ChatJet in Dafny

ChatJet is a Socket.IO chat application with two browser clients:

- a plain-script page, `public/script.js`;
- a React client under `client/src`.

Both clients keep the user's session in the browser's `localStorage`:

- the name, the room and the time of last activity;
- a per-room message history under `chatjet_hist_<room>`;
- a persistent voter id.

After two minutes without activity, a session is wiped. The small Node server, `server.js`, gives every connection a brightened random colour. It forwards chat messages under the sender's name.

This project models the clients' core logic and proves properties of it. Each module follows one source file:

| module | source |
|---|---|
| `Strings` | the string operations the clients use: `trim`, `split`/`join`, ASCII case mapping, the `[^a-zA-Z0-9]` filter and the default sort order |
| `Protocol` | the messages and the socket events the clients send |
| `Browser` | `localStorage` as a class over a map from keys to typed values, and the session keys |
| `Commands` | parsing of slash commands and of `/poll Q \| A \| B` lines, shared by both clients |
| `Inactivity` | the two-minute inactivity timeout, the timer display and the one-second activity throttle |
| `App` | `App.jsx`: the timeout check, the session wipe and the one-time auto-rejoin on connect |
| `Onboarding` | `Onboarding.jsx`: the join form |
| `ChatScreen` | `ChatScreen.jsx`: the message list state, persistence, poll updates, deletions, invitations, slash commands and leaving |
| `MessageList` | `MessageList.jsx`: how each message is classified as a system line, a poll card or a message item |
| `MessageItem` | `MessageItem.jsx`: HTML escaping, the avatar text, the code-block label, the delete button and the ephemeral countdown |
| `MessageInput` | `MessageInput.jsx`: the input box, the typing indicator, code mode, attachments and the send keys |
| `Poll` | `Poll.jsx`: vote totals, rounded percentages and the persistent voter id |
| `LegacyClient` | `public/script.js`: the history capped at 51 entries, the container capped at 100 nodes, history replay, the deterministic DM room id, sending and slash commands, invitations and the inactivity timer |
| `Server` | `server.js`: colour brightening, the name registry and the chat broadcast |

How the components are modelled:

- Components whose state changes are classes:
  - their fields are the component's state;
  - a field `sent: seq<Event>` logs the socket events they emit;
  - time is a parameter, and every timer is a deadline with a method that fires it.
- Each plain-page handler and each input-box handler states its frame. `LegacyClient.PageState` and `MessageInput.InputState` gather every field the page or the box updates. A handler ensures that the new `State()` is the old one with only its own fields replaced.
- The pure parts are functions. Lemmas relate them:
  - round trips: unescape after escape, split after join, and a typed `/poll` line back to its poll;
  - idempotence: applying a poll update twice, and deleting twice;
  - bounds: percentages, caps and the timer;
  - what the two clients have in common.
- A few methods without a contract play through small scenarios from the source:
  - `Inactivity.ActivityBurst`
  - `MessageInput.TypeAndSend`
  - `MessageItem.TenSecondCountdown`
  - `App.ReturningPublicUser`
  - `Server.NameReachesBroadcast`
  - `Onboarding.PrivateJoinNeedsPassword`

## Model

| member | source | states |
|---|---|---|
| Strings.Trim | public/script.js:583 | The trimmed text is no longer than the input, and it neither starts nor ends with white space. |
| Strings.TrimBounds | public/script.js:583 | The trimmed text is a slice `s[i..j]` of the input, and everything outside the slice is white space. |
| Strings.TrimIsSlice | client/src/components/ChatScreen.jsx:163 | Trimming removes only a blank prefix and a blank suffix. |
| Strings.TrimEmptyIffBlank | client/src/components/Onboarding.jsx:11 | `!s.trim()` holds exactly when every character of `s` is white space. |
| Strings.TrimKeepsAbsent | client/src/components/ChatScreen.jsx:163 | Trimming never introduces a character that was not in the input. |
| Strings.CountIsMultiplicity | client/src/components/ChatScreen.jsx:135 | The separator count used for `split` is the number of occurrences of the separator in the text. |
| Strings.Split | client/src/components/ChatScreen.jsx:135 | `split` yields one more piece than there are separators, and no piece holds the separator. |
| Strings.JoinLast | client/src/components/ChatScreen.jsx:153 | A join ends with the last character of its last non-empty part. |
| Strings.JoinSplit | client/src/components/ChatScreen.jsx:153 | `split(' ')` followed by `join(' ')` gives back the text. |
| Strings.SplitJoin | client/src/components/ChatScreen.jsx:163 | Splitting a join of separator-free parts gives back the parts. |
| Strings.ToLower | client/src/components/ChatScreen.jsx:136 | Lower-casing preserves the length and maps each character on its own. |
| Strings.ToUpper | client/src/components/MessageItem.jsx:107 | Upper-casing preserves the length and maps each character on its own. |
| Strings.Sanitize | public/script.js:389-390 | The `[^a-zA-Z0-9]` filter keeps only alphanumerics. It never lengthens the text and leaves an alphanumeric text unchanged. |
| Strings.SanitizeChar | public/script.js:389-390 | A single character is kept exactly when it is a letter or a digit. |
| Strings.SanitizeAppend | public/script.js:389-390 | The filter works character by character: filtering a concatenation is the concatenation of the filtered parts, so every alphanumeric is kept, in order. |
| Strings.LexLeTotal | public/script.js:391 | The default sort order compares any two names. |
| Strings.LexLeAntisymmetric | public/script.js:391 | Two names that sort before each other are equal. |
| Protocol.SystemMessage | client/src/components/ChatScreen.jsx:37 | A system message has kind `system`, the given text and the given id. |
| Browser.HistoryKey | client/src/components/ChatScreen.jsx:17 | The history key is `chatjet_hist_` followed by the room id. |
| Browser.HistoryKeyInjective | client/src/components/ChatScreen.jsx:17 | Different rooms have different history keys. |
| Browser.HistoryKeyIsNotSessionKey | client/src/components/ChatScreen.jsx:196-202 | No history key equals the name, room, last-activity or voter-id key. |
| Browser.SavedText | client/src/App.jsx:84-87 | A saved value is truthy exactly when it is a non-empty string under that key. |
| Browser.LocalStorage.GetItem | client/src/components/ChatScreen.jsx:19 | `getItem` returns the value stored under the key, or nothing. |
| Browser.LocalStorage.SetItem | client/src/components/ChatScreen.jsx:123 | `setItem` overwrites only that key. |
| Browser.LocalStorage.RemoveItem | client/src/components/ChatScreen.jsx:142 | `removeItem` removes only that key. |
| Browser.LocalStorage.Clear | public/script.js:14 | `clear` empties the store. |
| Commands.ArgLineIsRestOfText | client/src/components/ChatScreen.jsx:135-137 | Without a space, the command is the lower-cased text and the arguments are empty. Otherwise the command ends at the first space. |
| Commands.SlashCommandText | public/script.js:608-610 | A lower-case command word starting with `/`, a space and a line: the text is a command, its word is the command and its argument text is the line. |
| Commands.CommandWord | public/script.js:608-610 | For `word + " " + rest` with a lower-case, space-free word, the command is `word` and the joined arguments are `rest`. |
| Commands.CommandWordAlone | client/src/components/ChatScreen.jsx:134-137 | A lower-case word starting with `/` and holding no space is itself the command, with no arguments. |
| Commands.SingleWordCommand | public/script.js:608-610 | Text without a space is one command word: the lower-cased text, with no arguments. |
| Commands.CommandWordIgnoresCase | public/script.js:609 | `/CLEAR` is a command, and its word lower-cases to `/clear`. |
| Commands.TrimEach | client/src/components/ChatScreen.jsx:163 | `map(s => s.trim())` trims each piece and keeps the positions. |
| Commands.KeepNonEmpty | client/src/components/ChatScreen.jsx:163 | `filter(s => s.length > 0)` keeps only non-empty pieces of the input. |
| Commands.KeepNonEmptyAppend | client/src/components/ChatScreen.jsx:163 | The filter works piece by piece: filtering a concatenation is the concatenation of the filtered parts. |
| Commands.KeepNonEmptyKeeps | client/src/components/ChatScreen.jsx:163 | Every non-empty piece is kept. |
| Commands.PollParts | public/script.js:634 | The poll parts are non-empty, trimmed and free of the pipe character. There are at most one more of them than there are pipes. |
| Commands.PollPartsKeepEveryPiece | public/script.js:634 | Every piece between pipes that is not blank is a poll part, trimmed. |
| Commands.PollPartsOfJoin | public/script.js:633-634 | Parts that are already trimmed, non-empty and pipe-free, joined with pipes, parse back to the same parts. |
| Commands.PollOfParts | public/script.js:636-641 | A poll exists exactly when there are at least three parts. The question followed by the options is the list of parts. |
| Commands.ParsePoll | client/src/components/ChatScreen.jsx:162-174 | A poll line is accepted exactly when it has at least three parts. It then has at least two pipes and two options, and every part is a valid poll part. |
| Commands.BurnText | public/script.js:629 | The burn text is the prefix, the secret and the ephemeral marker, in that order. |
| Inactivity.LastActive | client/src/App.jsx:27 | The stored last-activity time, or now when none is stored. |
| Inactivity.Remaining | client/src/App.jsx:28-29 | The remaining time is `max(0, 120000 - elapsed)`. It is zero exactly when the elapsed time reaches two minutes. |
| Inactivity.LaterActivityLeavesMoreTime | client/src/App.jsx:26-29 | Later activity never leaves less remaining time. |
| Inactivity.TimerDisplay | public/script.js:49-51 | The minutes and the seconds (below 60) of the display add up to the whole seconds remaining. |
| Inactivity.ChatScreenTimerAgrees | client/src/components/ChatScreen.jsx:242 | The React header's `m:ss` equals the plain page's timer. |
| Inactivity.LoadCheckAgainstTimer | public/script.js:11-15 | An expired load implies a zero timer. At exactly two minutes, the load check does not wipe while the timer already reads zero. |
| Inactivity.ActivityThrottle.constructor | client/src/App.jsx:45-51 | The throttle starts open, with no writes. |
| Inactivity.ActivityThrottle.OnActivity | client/src/App.jsx:45-51 | Activity while throttled changes nothing. Otherwise it writes `now` as the last activity and throttles for one second. |
| App.WipeSession | client/src/App.jsx:33-37 | The timeout removes exactly the name, room and last-activity keys and keeps every other value. |
| App.WipeKeepsHistories | client/src/App.jsx:33-37 | Room histories and the voter id survive a timeout wipe. |
| App.AutoRejoinDecision | client/src/App.jsx:87-97 | On connect, the app joins the public room only for a saved name and saved room `Public`, not yet auto-joined and not in a room. A private saved room only restores the name. |
| App.AutoRejoinAtMostOnce | client/src/App.jsx:87-88 | After an auto-join, a later connect never joins again. |
| App.AppState.constructor | client/src/App.jsx:16-21 | The initial state: no user or room, the full timeout and loading. |
| App.AppState.CheckTimeout | client/src/App.jsx:26-39 | Sets the time left from the stored activity. At zero it wipes the session and reloads. |
| App.AppState.SetUserName | client/src/App.jsx:123-125 | A non-empty name is saved under `chatjet_name`. |
| App.AppState.Mount | client/src/App.jsx:24-68 | The timeout check runs first. A saved name and room then restore the name. Loading ends. |
| App.AppState.OnActivity | client/src/App.jsx:45-51 | Activity while throttled changes nothing. Otherwise it writes `now` as the last activity and throttles for one second. |
| App.AppState.OnConnect | client/src/App.jsx:80-99 | Performs the auto-rejoin decision on the stored name and room. |
| App.AppState.OnRoomJoined | client/src/App.jsx:105-108 | The joined room becomes current and is saved under `chatjet_room`. |
| Onboarding.Attempt | client/src/components/Onboarding.jsx:10-32 | A blank name only reports an error. Otherwise the name is saved and the request is sent unless a private box is blank. Requests carry the boxes untrimmed. |
| Onboarding.AttemptAgreesWithPlainClient | client/src/components/Onboarding.jsx:10-32 | The form accepts the same boxes as the plain page's join buttons and sends the same kind of request. The requests are equal when nothing needs trimming. |
| Onboarding.Form.constructor | client/src/components/Onboarding.jsx:4-8 | Public mode, with the name box holding the saved name or nothing. |
| Onboarding.Form.Edit | client/src/components/Onboarding.jsx:48-90 | The mode buttons and the three boxes set only their own field. |
| Onboarding.Form.HandleJoin | client/src/components/Onboarding.jsx:10-32 | Shows the error, stores the name, calls `setUser` and sends the request, each as `Attempt` says. |
| ChatScreen.MergePoll | client/src/components/ChatScreen.jsx:47 | The update overrides the poll's id, options and total, and nothing else. |
| ChatScreen.ApplyPollUpdate | client/src/components/ChatScreen.jsx:44-51 | Only messages with the poll's id change, by the merge. Length and ids are kept. |
| ChatScreen.PollUpdateIdempotent | client/src/components/ChatScreen.jsx:44-51 | Applying the same update twice equals applying it once. |
| ChatScreen.DeleteById | client/src/components/ChatScreen.jsx:88 | The result holds no message with the id, and only messages of the input. |
| ChatScreen.DeleteByIdKeepsOthers | client/src/components/ChatScreen.jsx:88 | Every other message keeps its number of occurrences. |
| ChatScreen.DeleteByIdAppend | client/src/components/ChatScreen.jsx:88 | Deletion distributes over concatenation. |
| ChatScreen.DeleteByIdIdempotent | client/src/components/ChatScreen.jsx:86-91 | Deleting an id that is absent changes nothing, so deleting twice equals deleting once. |
| ChatScreen.AddInvite | client/src/components/ChatScreen.jsx:68-73 | A repeat sender is ignored, and a new one is appended. Senders stay unique. |
| ChatScreen.RemoveInvite | client/src/components/ChatScreen.jsx:211 | Removes exactly the requests with that id and keeps the others. |
| ChatScreen.RemoveInviteAppend | client/src/components/ChatScreen.jsx:211 | The filter distributes over concatenation, so the kept requests stay in order. |
| ChatScreen.RemoveInviteOne | client/src/components/ChatScreen.jsx:211 | A single request is kept exactly when its id differs. |
| ChatScreen.RemoveInviteKeepsUnique | client/src/components/ChatScreen.jsx:211 | Removing requests keeps the senders of the remaining ones unique. |
| ChatScreen.RestoredMessages | client/src/components/ChatScreen.jsx:17-20 | Missing history gives no messages. A stored list gives one message per item, in order: a plain-page entry gives its `data`, and a plain message gives itself. The read fails exactly for text that does not parse and for a parsed value that is not a list. |
| ChatScreen.RestoreReadsBackSaved | client/src/components/ChatScreen.jsx:17-20 | A list this client saved reads back as the same messages. |
| ChatScreen.SendOutcome | client/src/components/ChatScreen.jsx:133-184 | Text without a leading `/` is emitted as is, with its attachment. A command never carries the attachment. |
| ChatScreen.PollCommandOutcome | client/src/components/ChatScreen.jsx:160-175 | Fewer than three parts shows the usage notice. Otherwise a `create poll` of the parts is emitted, in this room and by this user. |
| ChatScreen.PollCommandRoundTrip | client/src/components/ChatScreen.jsx:160-175 | `/poll ` followed by parts joined with pipes creates exactly the poll of those parts. |
| ChatScreen.BurnCommandOutcome | client/src/components/ChatScreen.jsx:152-159 | `/burn secret` emits the burn text of the secret. A bare `/burn` shows the usage notice. |
| ChatScreen.ClearCommandOutcome | client/src/components/ChatScreen.jsx:140-143 | `/clear`, with or without arguments, clears the messages and the history. |
| ChatScreen.UpperCaseCommandOutcome | client/src/components/ChatScreen.jsx:136-143 | The command word is matched in any case: `/CLEAR` clears. |
| ChatScreen.ShrugCommandOutcome | client/src/components/ChatScreen.jsx:149-151 | `/shrug`, with or without arguments, emits the shrug text without an attachment. |
| ChatScreen.HelpCommandOutcome | client/src/components/ChatScreen.jsx:176-179 | `/help` falls through to the default: the notice listing the commands. |
| ChatScreen.UnknownCommandOutcome | client/src/components/ChatScreen.jsx:176-179 | Any other command word only adds the notice listing the commands. |
| ChatScreen.LeaveStore | client/src/components/ChatScreen.jsx:196-202 | Leaving removes exactly the name, room, last-activity and this room's history keys. |
| ChatScreen.LeaveKeepsOtherRooms | client/src/components/ChatScreen.jsx:196-202 | Other rooms' histories and the voter id survive leaving. |
| ChatScreen.Screen.constructor | client/src/components/ChatScreen.jsx:7-12 | Empty messages and invites, with nothing sent. |
| ChatScreen.Screen.Restore | client/src/components/ChatScreen.jsx:15-27 | Messages become the restored history, and `request users` is sent. |
| ChatScreen.Screen.AddMessage | client/src/components/ChatScreen.jsx:118-127 | Appends the message. The history is saved for non-system messages and for system texts containing `joined`. |
| ChatScreen.Screen.OnChatMessage | client/src/components/ChatScreen.jsx:31-33 | Appends the message as kind `message` and saves the history. |
| ChatScreen.Screen.OnSystemMessage | client/src/components/ChatScreen.jsx:35-38 | Appends a system line, saved only when it contains `joined`. |
| ChatScreen.Screen.OnNewPoll | client/src/components/ChatScreen.jsx:40-42 | Appends the poll as kind `poll` and saves the history. |
| ChatScreen.Screen.OnUpdatePoll | client/src/components/ChatScreen.jsx:44-51 | Messages become `ApplyPollUpdate` of the old messages. |
| ChatScreen.Screen.OnMessageDeleted | client/src/components/ChatScreen.jsx:86-92 | Messages become `DeleteById` of the old messages, and the history is saved. |
| ChatScreen.Screen.OnDmRequest | client/src/components/ChatScreen.jsx:68-74 | Invites become `AddInvite` of the old invites. |
| ChatScreen.Screen.OnJoinDmRoom | client/src/components/ChatScreen.jsx:77-83 | Sends `join dm`, switches and saves the room, and clears the invites. |
| ChatScreen.Screen.Accept | client/src/components/ChatScreen.jsx:206-212 | Sends `dm accepted` and removes the request. |
| ChatScreen.Screen.Decline | client/src/components/ChatScreen.jsx:214-216 | Removes the request and sends nothing. |
| ChatScreen.Screen.HandleDeleteMessage | client/src/components/ChatScreen.jsx:129-131 | Sends `delete message` for this room. |
| ChatScreen.Screen.HandleStartDm | client/src/components/ChatScreen.jsx:186-194 | Sends the DM request only when it is confirmed. |
| ChatScreen.Screen.HandleSendMessage | client/src/components/ChatScreen.jsx:133-184 | Does what `SendOutcome` says: emits, adds a notice, or clears the messages and the history. |
| ChatScreen.Screen.HandleLeave | client/src/components/ChatScreen.jsx:196-204 | The store becomes `LeaveStore` of the old store, and the page reloads. |
| MessageList.RowsOf | client/src/components/MessageList.jsx:29 | There is one row per message. |
| MessageList.RowsOfAt | client/src/components/MessageList.jsx:29-59 | Row `i` is the classification of message `i`. |
| MessageList.RenderClassifies | client/src/components/MessageList.jsx:16-59 | An empty list shows the empty state. Otherwise each row is a system line, a poll card or an item, with `isOwn` when the name matches. |
| MessageItem.EscapeCharSafe | client/src/components/MessageItem.jsx:111-118 | Each escaped character is non-empty and free of `<`, `>` and quotes. Ordinary characters are kept. |
| MessageItem.EscapeHtml | client/src/components/MessageItem.jsx:110-119 | Escaping never shortens the text. |
| MessageItem.EscapeHtmlOfPlain | client/src/components/MessageItem.jsx:118 | Text without special characters is unchanged. |
| MessageItem.EscapeHtmlHasNoMarkup | client/src/components/MessageItem.jsx:118 | Escaped text contains no `<`, `>` or quote. |
| MessageItem.EscapeHtmlAppend | client/src/components/MessageItem.jsx:118 | Escaping distributes over concatenation. |
| MessageItem.UnescapeEscape | client/src/components/MessageItem.jsx:110-119 | Decoding the entities of escaped text gives back the text. |
| MessageItem.RenderSource | client/src/components/MessageItem.jsx:122-127 | The markup source is empty exactly for a missing or empty text, and it decodes back to the text. |
| MessageItem.AvatarText | client/src/components/MessageItem.jsx:107 | `??` without a name. Otherwise the first two characters, upper-cased. |
| MessageList.DeleteButtonOnOwnMessages | client/src/components/MessageList.jsx:51-56 | A rendered entry shows a delete button exactly when it is neither a system entry nor a poll and its name is the user's name; the handler the list passes is always present, and the item shows the button only for its own messages (MessageItem.jsx:149). |
| MessageItem.CodeLabel | client/src/components/MessageItem.jsx:53-54 | Without a `language-` class, the label is `code`. |
| MessageItem.CodeLabelOfFirst | client/src/components/MessageItem.jsx:53-54 | The label is the rest of the first `language-` class. |
| MessageItem.CeilSeconds | client/src/components/MessageItem.jsx:28 | `Math.ceil(remaining / 1000)`: the smallest whole second count covering the time remaining. |
| MessageItem.CountdownAt | client/src/components/MessageItem.jsx:27-33 | The count is non-negative. It expires exactly at the end time, which is exactly when the count reaches 0. |
| MessageItem.CountdownNonIncreasing | client/src/components/MessageItem.jsx:26-33 | The count never rises, and once expired the message stays expired. |
| MessageItem.Countdown.constructor | client/src/components/MessageItem.jsx:17-18 | Not expired, with no countdown. |
| MessageItem.Countdown.Start | client/src/components/MessageItem.jsx:21-25 | A positive `ephemeral` that has not expired sets the end time. |
| MessageItem.Countdown.Tick | client/src/components/MessageItem.jsx:26-34 | Shows the ceiling seconds, and expires at the end time. |
| MessageInput.DetectLanguage | client/src/components/MessageInput.jsx:47-61 | Code under ten characters is never labelled. A label needs relevance above 5 and a language. |
| MessageInput.KeySendsRule | client/src/components/MessageInput.jsx:113-123 | Outside code mode, Enter without Shift sends. In code mode, Ctrl+Enter sends. No other key sends. |
| MessageInput.FinalText | client/src/components/MessageInput.jsx:128-133 | The text is fenced only in code mode with a non-blank text, and the fence carries the language. |
| MessageInput.Input.constructor | client/src/components/MessageInput.jsx:64-68 | The box starts empty, not typing, and not in code mode. |
| MessageInput.Input.HandleInput | client/src/components/MessageInput.jsx:83-111 | Sets the text. `typing` is sent once per burst, the stop timer is restarted, and detection is scheduled in code mode. |
| MessageInput.Input.TypingTimeout | client/src/components/MessageInput.jsx:107-110 | Sends `stop typing` and turns the indicator off. Nothing else changes, the pending detection included. |
| MessageInput.Input.DetectTimeout | client/src/components/MessageInput.jsx:90-95 | A detected language replaces the label. Otherwise the label is kept. Only the label and the pending detection change. |
| MessageInput.Input.HandleSend | client/src/components/MessageInput.jsx:125-145 | A blank text with no attachment does nothing. Otherwise it submits the final text and the attachment, resets the box and sends `stop typing`. The label, the stop timer and the pending detection stay. |
| MessageInput.Input.HandleKeyDown | client/src/components/MessageInput.jsx:113-123 | A sending key acts as `HandleSend`. Other keys change nothing. The label, the stop timer and the pending detection always stay. |
| MessageInput.Input.HandleFileChange | client/src/components/MessageInput.jsx:153-172 | A file of at most 5 MiB becomes the attachment. No file or a larger one leaves it unchanged. Only the attachment changes. |
| MessageInput.Input.RemoveAttachment | client/src/components/MessageInput.jsx:226 | Drops the attachment and nothing else. |
| MessageInput.Input.ToggleCodeMode | client/src/components/MessageInput.jsx:147-151 | Flips code mode and throws at the undefined `setShowLangDropdown`. Nothing else changes. |
| Poll.TotalVotes | client/src/components/Poll.jsx:2 | With counts that are not negative, the total is not negative and bounds every count. |
| Poll.TotalVotesCons | client/src/components/Poll.jsx:2 | The left fold is also the sum from the front. |
| Poll.Percent | client/src/components/Poll.jsx:28 | 0 for no votes. Otherwise the integer nearest to `100 * count / total`, with halves rounded up. |
| Poll.PercentInRange | client/src/components/Poll.jsx:28 | A share shows between 0 and 100, and the whole total shows 100. |
| Poll.OptionPercentInRange | client/src/components/Poll.jsx:2-28 | Every option of a poll shows between 0 and 100 percent. |
| Poll.VoterId | client/src/components/Poll.jsx:6-10 | The saved voter id, or else a newly generated one. |
| Poll.HandleVote | client/src/components/Poll.jsx:4-18 | Sends `vote poll` with the voter id and persists that id. |
| Poll.VoteTwice | client/src/components/Poll.jsx:4-18 | Two votes from one browser carry the same voter id. |
| Server.Brighten | server.js:48-56 | A channel stays within 0 to 255 and never darkens. It ends above 50 exactly when it started above 25. |
| Server.BrightColor | server.js:43-58 | Every channel of a brightened colour is a valid channel. |
| Server.SenderName | server.js:34 | The registered name, or `Unknown` when it is missing or empty. Never empty. |
| Server.Server.constructor | server.js:10-11 | The colour and name registries start empty. |
| Server.Server.Connect | server.js:16-18 | Records and sends the brightened colour. |
| Server.Server.Disconnect | server.js:20-24 | Forgets exactly this socket's colour and name. |
| Server.Server.SetName | server.js:26-29 | Records the name and changes nothing else. |
| Server.Server.ChatMessage | server.js:31-39 | Broadcasts the sender's name, the message and the sender's colour. |
| LegacyClient.PushCapped | public/script.js:136-139 | Push onto a history holding more than 50 entries (51 at the cap) drops the oldest. The new entry is last and the rest are kept in order. |
| LegacyClient.PushCappedIsLast | public/script.js:136-139 | A capped push keeps the newest `cap` entries. |
| LegacyClient.PushAllIsLast | public/script.js:128-141 | Any sequence of saves keeps exactly the newest `cap` entries. |
| LegacyClient.SavedList | public/script.js:130-134 | A missing value or text that does not parse reads as an empty list. A stored list is read as is, whoever wrote it. A parsed non-list value is where the push will throw. |
| LegacyClient.SaveExtendsReactHistory | public/script.js:128-140 | A list the React client wrote is kept: the oldest message is dropped above 50 and the entry is appended. |
| LegacyClient.SavesKeepNewest | public/script.js:136-139 | Saving any number of entries leaves the newest 51 of them. |
| LegacyClient.HideEmptyStateRemovesIt | public/script.js:722-724 | `hideEmptyState` removes the placeholder and keeps every other node in order. |
| LegacyClient.HideKeepsEmptyStateFirst | public/script.js:722-724 | Hiding keeps the placeholder, if any, first. |
| LegacyClient.PushKeepsEmptyStateFirst | public/script.js:243-247 | Appending a message keeps the placeholder, if any, first. |
| LegacyClient.RenderNodes | public/script.js:175-250 | `renderMessage`'s work on the container equals `RenderStep`. |
| LegacyClient.RestoreNodes | public/script.js:149-159 | One `forEach` step equals `RestoreStep`. |
| LegacyClient.RenderStep | public/script.js:175-250 | `renderMessage` throws exactly on a missing name outside skipped restores. It skips ephemeral messages on restore. The node is appended and capped at 100, so the bound and the placeholder position are kept. |
| LegacyClient.ReplayShowsNoEphemeral | public/script.js:149-151 | A replayed history shows no ephemeral message, no message without a name, and no placeholder. |
| LegacyClient.ReplayStaysThrown | public/script.js:149-151 | Once a restore throws, the later entries add nothing. |
| LegacyClient.RestoredPage | public/script.js:143-172 | Text that does not parse throws before the container is cleared. A parsed non-list value clears the container and then throws. A missing or empty list shows only the placeholder. A non-empty list is replayed, and the result never shows the placeholder first. |
| LegacyClient.ReactHistoryStopsRestore | public/script.js:149-157 | A history holding a message or a poll the React client wrote makes the restore throw. |
| LegacyClient.ReplayNodes | public/script.js:149-159 | The `forEach` loop produces the container and the thrown flag of `Replay`. |
| LegacyClient.RestorePageNodes | public/script.js:143-172 | The restore's container work equals `RestoredPage`. |
| LegacyClient.DmRoomIdSymmetric | public/script.js:389-392 | Both users compute the same DM room id. |
| LegacyClient.DmRoomIdParts | public/script.js:389-392 | The id splits on `-` into `DM` and the two sanitized names, in sorted order. |
| LegacyClient.SendDecision | public/script.js:581-593 | Blank text with no attachment is ignored. Trimmed `/` text without an attachment is a command. Everything else is a chat message carrying the attachment. |
| LegacyClient.PollRoom | public/script.js:643 | The current room, or else `Public`. |
| LegacyClient.SlashAction | public/script.js:607-658 | Command messages never carry an attachment, and polls go to `PollRoom` under the user's name. |
| LegacyClient.PollRoundTrip | public/script.js:581-644 | Typing `/poll ` with parts joined by pipes creates exactly that poll. |
| LegacyClient.PollSlashAction | public/script.js:631-644 | A poll line with at least three parts creates the poll of its parts. |
| LegacyClient.PollLineIsTrimmed | public/script.js:583-589 | A typed poll line is sent to the command handler as typed. |
| LegacyClient.BurnOutcome | public/script.js:625-630 | `/burn secret` sends the burn text. A bare `/burn` shows the usage notice. |
| LegacyClient.ClearOutcome | public/script.js:613-616 | `/clear`, with or without arguments, is the clear action: `HandleSlashCommand` empties the container and adds the cleared notice. |
| LegacyClient.UpperCaseOutcome | public/script.js:609-616 | The command word is matched in any case: `/CLEAR` clears. |
| LegacyClient.HelpOutcome | public/script.js:645-654 | `/help`, with or without arguments, shows the help text. |
| LegacyClient.ShrugOutcome | public/script.js:622-624 | `/shrug`, with or without arguments, sends the shrug text without an attachment. |
| LegacyClient.UnknownOutcome | public/script.js:655-656 | Any other command word, such as `/who`, only shows the unknown-command notice. |
| LegacyClient.InvitingNotice | public/script.js:418 | The notice is `Joined private chat. Inviting ` followed by the name and `...`. |
| LegacyClient.InsertCodeBlock | public/script.js:676-683 | The selection is replaced by an empty fenced block, and the text around it is kept. |
| LegacyClient.JoinRequest | public/script.js:327-349 | A request is sent exactly when the needed boxes are non-blank, and it carries the trimmed values. |
| LegacyClient.Page.constructor | public/script.js:1-6 | The initial page. The container holds only the placeholder, or nothing. |
| LegacyClient.Page.OnLoad | public/script.js:9-19 | An expired session is cleared, the activity is stamped, and the saved name fills the box. |
| LegacyClient.Page.OnActivity | public/script.js:30-39 | Activity while throttled changes nothing. Otherwise it writes `now` as the last activity and throttles for one second. No other field changes. |
| LegacyClient.Page.LeaveRoom | public/script.js:277-280 | Clears the store and reloads. |
| LegacyClient.Page.Tick | public/script.js:42-68 | Sets the timer and the warning from the remaining time, and leaves at zero. |
| LegacyClient.Page.SaveToHistory | public/script.js:128-141 | Nothing happens without a room. The store becomes `SavedStore`: the capped push is stored under the room's key. It throws exactly when the stored value parses to a non-list. |
| LegacyClient.Page.RenderMessage | public/script.js:175-250 | The container and the thrown flag become `RenderStep`. |
| LegacyClient.Page.RestoreEntry | public/script.js:149-159 | A single history entry is rendered as in the replay. |
| LegacyClient.Page.RestoreHistory | public/script.js:143-172 | The container and the thrown flag become `RestoredPage` of the stored value. Text that does not parse leaves the container and throws. Only the container changes. |
| LegacyClient.Page.OnChatMessage | public/script.js:253-262 | Saves to history, then renders as `RenderStep` says. A save that throws ends the handler before the render. Only the container and the store change. |
| LegacyClient.Page.OnNewPoll | public/script.js:264-274 | Saves to history, hides the placeholder and appends the poll, without the cap. A save that throws leaves the container unchanged. |
| LegacyClient.Page.OnSystemMessage | public/script.js:476-483 | Hides the placeholder and appends the line, without the cap. |
| LegacyClient.Page.AddSystemMessage | public/script.js:660-666 | Appends the line. |
| LegacyClient.Page.RoomJoinedAtLoad | public/script.js:352-366 | Sets the room and the trimmed name, and saves the name. |
| LegacyClient.Page.RoomJoinedRestoring | public/script.js:101-125 | Stores the active session, saves the name and restores the history. |
| LegacyClient.Page.OnRoomJoined | public/script.js:101-125 | Both `room joined` handlers, in the order they are registered. |
| LegacyClient.Page.Join | public/script.js:327-349 | Sends `JoinRequest` of the boxes, if any. |
| LegacyClient.Page.HandleSlashCommand | public/script.js:607-658 | Performs `SlashAction`: sends an event, adds a notice, or clears the container. |
| LegacyClient.Page.SendMessage | public/script.js:581-605 | Does what `SendDecision` says. A chat message is followed by `stop typing`, and the box and the attachment are cleared. |
| LegacyClient.Page.HandleKeyDown | public/script.js:701-706 | Enter without Shift does what `SendMessage` does for each `SendDecision`: nothing for blank text, the command for trimmed `/` text with the box cleared, and otherwise the chat message and `stop typing`. Other keys change nothing. |
| LegacyClient.Page.HandleInput | public/script.js:453-463 | Sends `typing` on every input and restarts the stop timer. |
| LegacyClient.Page.TypingTimeout | public/script.js:456-458 | Sends `stop typing`. |
| LegacyClient.Page.HandleFileUpload | public/script.js:488-517 | A file of at most 5 MiB becomes the pending attachment. |
| LegacyClient.Page.ClearAttachment | public/script.js:519-522 | Drops the pending attachment. |
| LegacyClient.Page.ToggleCodeMode | public/script.js:669-687 | Flips code mode. Switching it on inserts the fence and puts the cursor inside it. |
| LegacyClient.Page.StartDm | public/script.js:387-419 | Joins the deterministic DM room, invites the target and shows the notice. |
| LegacyClient.Page.OnInviteReceived | public/script.js:422-439 | Adds the invitation and shows the panel. |
| LegacyClient.Page.AcceptInvite | public/script.js:441-449 | Joins the room with password `dm` and removes the invitation. The panel hides when none are left. |
| LegacyClient.Page.IgnoreInvite | public/script.js:435 | Removes the invitation only. |

## Left out

- **I/O and the browser:** the network transport, the DOM, focus, scrolling, textarea resizing, `alert` and `confirm` are left out. A confirmation is a boolean parameter. An alert leaves the state unchanged.
- **Time and randomness are parameters:**
  - `Date.now()`;
  - `crypto.randomUUID()`: the `generated` id;
  - `Math.random()`: the raw colour given to `Server.BrightColor`, and the `/roll` result, which is modelled as a `roll` event carrying its `max` argument.
- **Foreign libraries are left out:** `marked`, `DOMPurify`, Prism and `highlight.js`. The `highlightAuto` result is a parameter (`Guess`). `MessageItem.RenderSource` stops at the escaped source handed to `marked`.
- **Strings:** they are sequences of Unicode scalar values. JavaScript counts UTF-16 code units, so `substring(0, 2)` and `length < 10` may differ on characters outside the BMP. `toUpperCase` and `toLowerCase` are modelled on ASCII letters only.
- **Storage types:** `localStorage` values are typed rather than JSON or decimal strings: text, a time, a history list, or a session record.
  - A list item is a plain-page entry (`type`, `data`, `timestamp`) or a message the React client stored as is.
  - Text is a value that does not parse. A time or a session record under a history key parses to a non-list.
  - Both clients react to these as JavaScript does: the React client's read fails and keeps its messages. The plain page's save starts a fresh list on text and throws on a non-list. Its restore throws.
- **FileReader:** it is taken as synchronous, so the attachment is set when the file is picked.
- `MessageInput` code mode: `toggleCodeMode` in `MessageInput.jsx` calls `setShowLangDropdown` (line 149). That name is never defined, so the toggle throws after queuing `setCodeMode(!codeMode)` (line 148). `MessageInput.Input.ToggleCodeMode` flips the mode and reports the throw. The error overlay and the skipped focus are not modelled.
- `public/script.js` dead code:
  - The nested `DOMContentLoaded` auto-login (lines 71-96) is registered inside a `DOMContentLoaded` handler, so it never runs.
  - The top-level `leaveRoom` (690-692) is shadowed by `window.leaveRoom`.
- `public/script.js` duplicate `room joined` handler: it is registered twice (lines 101 and 352). `LegacyClient.Page.OnRoomJoined` runs both in order. Both update `chatjet_name`.
- LegacyClient.PushCapped: the history comment says 50 entries. The code keeps up to 51 (`length > 50` before the push), and the model follows the code.
- LegacyClient.Page.OnNewPoll: polls and system lines bypass the 100-node cap, so the legacy container can exceed 100 nodes. Only `RenderStep` keeps the bound.
- **Legacy rendering left out:**
  - `update poll` DOM updates (526-545), `renderPollHTML` and the legacy `vote`;
  - the `error` fallback that `startDM` installs (401-412), which creates the room after a failed join;
  - the timeout that removes ephemeral messages (186-189);
  - the `<`-only escaping and the avatar markup in `renderMessage`.
- **Other handlers left out:**
  - the `color`, `error` and `room users` handlers, and the peer typing indicators;
  - `switchMode`, `EPM`, the sidebar toggle, and the reconnect re-request of users in `ChatScreen.jsx` (95-99).
- **Scope:** the Sidebar, the room directory, room secrets, the server's room, DM and vote handlers, and the `Aurora` background are not part of this model.
- Poll.Percent: `Math.round((count / total) * 100)` is read as exact rational arithmetic. Floating-point rounding of `count / total` near a half is not modelled.
- ChatScreen.Screen.OnSystemMessage: a system message delivered as an object (`text.text`) is modelled by its text alone.
- MessageItem.Countdown.Tick: the 100 ms interval is a method called at any time after the start. The interval's period is not modelled.
