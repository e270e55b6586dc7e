# Chat conversation store

A model of the conversation store inside the chat page's component
(`src/components/ChatInterface.tsx`): an ordered list of chats, each with
an id, a title, its messages and the time it was created or last received
a user message; the id
of the open chat; the text in the composer; and the flag that shows the
typing indicator while a reply is pending. The component's handlers —
create a chat, select one, delete one, type, send, receive the delayed
canned reply, press a key — are the methods of the class
`Component.ChatInterface`, whose four fields are the component's four
state variables. The list transformations the handlers apply (the prepend,
`filter`, `find`, and the two `map` updates) are pure functions in module
`Chats`; `trim` is modelled in `Text`, the canned-reply table in `Replies`.

The class keeps an invariant (`Valid`): the open chat, when there is one,
is in the list, and every chat's title is the placeholder until a user
message starts the chat, and from then on the first 30 characters of that
first message followed by `...`.

Clock readings (`Date.now()`, `new Date()`) and the draw of `Math.random()`
are parameters of the methods: `newChatId` (the id the create step takes),
`clockId` (the second `Date.now()` a send reads when no chat is open),
`messageId`, `replyId`, `now`, and `u` in [0, 1) for the reply choice.

Three behaviours of the code differ from what the interface suggests, and
the model follows the code:
- a reply does not refresh the chat's last-activity time (only a user
  message does);
- the send button is disabled while a reply is pending, but the Enter key
  sends regardless (`HandleKeyPress` does not look at `isTyping`), so two
  replies can be pending and the first one clears the indicator;
- after deleting the open chat, the new open chat is the first chat of the
  list *before* the deletion whose id differs, and only when that list had
  more than one chat.

## Model

| member | source | states |
|---|---|---|
| `Text.TrimStart` | src/components/ChatInterface.tsx:81 | the result is a suffix of the input that starts with a non-whitespace character or is empty, and all it cut off is whitespace |
| `Text.TrimEnd` | src/components/ChatInterface.tsx:81 | the result is a prefix of the input that ends with a non-whitespace character or is empty, and all it cut off is whitespace |
| `Text.Trim` | src/components/ChatInterface.tsx:81 | `trim()` is the contiguous middle of the input left after cutting whitespace-only ends, and neither starts nor ends with whitespace |
| `Text.BlankIffAllWhitespace` | src/components/ChatInterface.tsx:81 | the input trims to the empty string exactly when every character of it is whitespace (both directions) |
| `Text.IsBlank` | src/components/ChatInterface.tsx:81 | `!input.trim()` holds exactly when every character of the input is whitespace |
| `Replies.ReplyIndex` | src/components/ChatInterface.tsx:51 | `floor(u * 15)` for `u` in [0, 1) is a valid index into the table, and the floor of `u * 15` |
| `Replies.GetRandomResponse` | src/components/ChatInterface.tsx:32-52 | the reply is always one of the 15 table entries |
| `Replies.EveryResponseReachable` | src/components/ChatInterface.tsx:50-52 | every table entry k is picked by some draw (`k / 15`) |
| `Chats.NewChat` | src/components/ChatInterface.tsx:63-68 | a new chat has the given id, no messages, the placeholder title and the creation time |
| `Chats.Title` | src/components/ChatInterface.tsx:103 | the title is the first min(30, length) characters of the text followed by `...`; a text of at most 30 characters is kept whole |
| `Chats.FindIndex` | src/components/ChatInterface.tsx:76 | `find` yields the first position whose element satisfies the test, or none exactly when no element does |
| `Chats.CurrentChat` | src/components/ChatInterface.tsx:140-142 | the current chat is the first chat of the list with the active id; there is none exactly when nothing is active or no chat has the active id |
| `Chats.RemoveChat` | src/components/ChatInterface.tsx:74 | after the `filter` no chat has the deleted id, and the list is no longer than before |
| `Chats.RemoveChatMembers` | src/components/ChatInterface.tsx:74 | the chats left are exactly the chats of the old list whose id differs (both directions) |
| `Chats.RemoveChatDistributes` | src/components/ChatInterface.tsx:74 | removing from a concatenation is concatenating the removals: relative order is kept |
| `Chats.RemoveChatSingle` | src/components/ChatInterface.tsx:74 | a single chat is kept exactly when its id differs from the deleted one |
| `Chats.RemoveAbsentChat` | src/components/ChatInterface.tsx:74 | deleting an id no chat has leaves the list unchanged |
| `Chats.RemoveChatKeepsOtherIds` | src/components/ChatInterface.tsx:74 | every id other than the deleted one is still in the list afterwards |
| `Chats.RemoveChatKeepsTitles` | src/components/ChatInterface.tsx:74 | deletion keeps the remaining titles consistent with their chats' first messages |
| `Chats.NextActive` | src/components/ChatInterface.tsx:76 | the new open chat is the first chat of the old list with a different id; none exactly when the old list had at most one chat or all its chats have the deleted id |
| `Chats.NextActiveSurvives` | src/components/ChatInterface.tsx:74-76 | the chat chosen as the new open chat is in the list after the deletion |
| `Chats.AddUserMessage` | src/components/ChatInterface.tsx:100-105 | the message goes to the end, the time is refreshed, the title is cut from the text only when the chat had no messages and is otherwise unchanged |
| `Chats.AddReply` | src/components/ChatInterface.tsx:125 | the reply goes to the end; title and last-activity time are unchanged |
| `Chats.AppendUserMessage` | src/components/ChatInterface.tsx:97-108 | ids and order are unchanged, chats with another id are identical, each chat with the target id gains exactly the message at its end, the new time, and the first-message title rule |
| `Chats.AppendReply` | src/components/ChatInterface.tsx:122-128 | ids and order are unchanged, chats with another id are identical, each chat with the target id gains exactly the reply at its end and keeps its title and time |
| `Chats.AppendToAbsentChat` | src/components/ChatInterface.tsx:97-108 | appending to an id no chat has changes nothing |
| `Chats.AppendsKeepTitles` | src/components/ChatInterface.tsx:103 | a user append, or a non-user reply append, keeps every title equal to the placeholder or to the title of the chat's first user message: the title is set once |
| `Chats.FirstExchange` | src/components/ChatInterface.tsx:62-129 | create, send "hi", reply: the chat has two messages (user, then reply) and the title "hi..." |
| `Chats.SentChatsShape` | src/components/ChatInterface.tsx:83-108 | with a chat open the send only appends to it; with none, a chat with the new id is put in front, holding the message (and its title) exactly when the second clock reading equals its id and empty otherwise, and the rest of the list is appended to as that reading says |
| `Chats.FirstSendMissesNewChat` | src/components/ChatInterface.tsx:85-108 | when the two clock readings differ, the first send leaves the new chat empty and titled with the placeholder, and drops the message |
| `Chats.FirstSendToNewChat` | src/components/ChatInterface.tsx:85-108 | targeting the new chat's own id puts the message into it as its only message, sets its title, and leaves the older chats alone |
| `Component.SendsOnKey` | src/components/ChatInterface.tsx:134 | with Shift held no key sends; without Shift, a key sends exactly when it is Enter |
| `Component.SendEnabled` | src/components/ChatInterface.tsx:271 | the send button is enabled exactly when the input holds a non-whitespace character and no reply is pending |
| `Component.ChatInterface.constructor` | src/components/ChatInterface.tsx:24-28 | the initial state: no chats, nothing open, empty input, no reply pending |
| `Component.ChatInterface.SetInput` | src/components/ChatInterface.tsx:263 | the composer text becomes the typed text; nothing else changes |
| `Component.ChatInterface.SelectChat` | src/components/ChatInterface.tsx:162 | a listed chat becomes the open chat |
| `Component.ChatInterface.CreateNewChat` | src/components/ChatInterface.tsx:62-71 | the new empty chat is first, the old chats follow unchanged and in order, and it is the open chat; input and flag unchanged; invariant kept |
| `Component.ChatInterface.DeleteChat` | src/components/ChatInterface.tsx:73-78 | the list is the removal; the open chat moves to `NextActive` only if it was the deleted one, else stays; input and flag unchanged; invariant kept |
| `Component.ChatInterface.SendMessage` | src/components/ChatInterface.tsx:80-112 | a blank input changes nothing and schedules no reply; otherwise a chat is created when none is open, the message is appended to the target, the input is cleared, the flag is set and the target of the pending reply is returned; invariant kept |
| `Component.ChatInterface.ReceiveReply` | src/components/ChatInterface.tsx:114-130 | one canned, non-user reply is appended to the target chat, other chats and titles unchanged, and the flag is cleared; invariant kept |
| `Component.ChatInterface.HandleKeyPress` | src/components/ChatInterface.tsx:133-138 | Enter without Shift acts as a send; any other key changes nothing |

## Left out

- Rendering, the sidebar toggle, scroll-to-bottom and the theme toggle (src/components/ChatInterface.tsx:54-60, 144-280): presentation only.
- The simulated delay `1000 + Math.random() * 2000` and the `setTimeout` scheduling: the reply is the separate step `ReceiveReply`, which may be called at any later point, for any pending target, in any order.
- Clock readings: ids and timestamps are parameters; the several `new Date()` readings inside one handler are taken as one value `now`.
- `Math.random()`: the draw is a real parameter in [0, 1); floating-point rounding of `u * 15` is not modelled.
- React's state batching: the handlers' setter calls are modelled as sequential updates of the fields; the functional `map` update of a send sees the chat created just before it, as React's update queue does.
- Strings are sequences of Unicode scalar values; `slice(0, 30)` on UTF-16 code units, which can split a surrogate pair, is not modelled.
- Ids are never empty (`Date.now().toString()`), so the falsy-id cases of `!currentChat` and of `?.id || null` do not arise and are not modelled.
- The remote completion request, the credential store and the choice of system prompt are not part of this model: that code is not in the component modelled here.
- `Component.ChatInterface.HandleKeyPress`: `e.preventDefault()` is not modelled (it only affects the browser's own handling of the key).

## Findings

| source | as written | input that shows it | evidently intended | confidence | as-written member | corrected member |
|---|---|---|---|---|---|---|
| src/components/ChatInterface.tsx:85-88 | with no chat open, the send creates a chat (id from one `Date.now()`) and then targets a second `Date.now()` reading | the clock ticks between the readings: new chat id "1000", target "1001"; the message and later the reply match no chat | target the id of the chat just created | medium; not executed | `Chats.FirstSendMissesNewChat` | `Chats.FirstSendToNewChat` |

The methods of `Component.ChatInterface` keep the code's behaviour and take
the second reading as `clockId`; passing `clockId` equal to `newChatId`
gives the intended behaviour, which `Chats.FirstSendToNewChat` proves
delivers the message.
