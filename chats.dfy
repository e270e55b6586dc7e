/** The conversation data (messages and chats) and the pure list
    transformations the chat component applies to its list of chats:
    the prepend of a new chat, `filter` on delete, `find` for the next
    active and the current chat, and the two `map` updates of a send. */
module Chats {

  datatype Option<T> = None | Some(value: T)

  /** Chat and message ids are `Date.now().toString()`: a decimal string,
      never empty, so an id is always truthy. */
  type Id = s: string | |s| > 0 witness "0"

  /** A `Date` value, taken as an opaque reading of the clock. */
  type Time = int

  datatype Message = Message(id: Id, text: string, isUser: bool, timestamp: Time)

  datatype Chat = Chat(id: Id, title: string, messages: seq<Message>, lastMessage: Time)

  /** The title a fresh chat carries until its first message ("New chat"). */
  const Placeholder: string := "Новый чат"

  /** The truncation marker appended to a title cut from a message. */
  const Ellipsis: string := "..."

  /** The longest prefix of a message that goes into a title. */
  const TitleLength: nat := 30

  /** A chat as the create button makes it: no messages, the placeholder title. */
  function NewChat(id: Id, now: Time): (c: Chat)
    ensures c.id == id && c.messages == [] && c.title == Placeholder && c.lastMessage == now
  {
    Chat(id, Placeholder, [], now)
  }

  /** `text.slice(0, 30) + '...'`: the first 30 characters of the text
      (all of it when it is shorter), followed by the marker. */
  function Title(text: string): (r: string)
    ensures |r| <= TitleLength + |Ellipsis|
    ensures |r| == (if |text| < TitleLength then |text| else TitleLength) + |Ellipsis|
    ensures r[..|r| - |Ellipsis|] <= text && r[|r| - |Ellipsis|..] == Ellipsis
    ensures |text| <= TitleLength ==> r == text + Ellipsis
  {
    (if |text| < TitleLength then text else text[..TitleLength]) + Ellipsis
  }

  /** The ids of the chats, in list order. */
  function Ids(chats: seq<Chat>): (ids: seq<Id>)
    ensures |ids| == |chats|
    ensures forall i :: 0 <= i < |chats| ==> ids[i] == chats[i].id
  {
    seq(|chats|, i requires 0 <= i < |chats| => chats[i].id)
  }

  /** `Array.prototype.find`, returning the position found: the first
      index whose element satisfies `p`, or None when no element does. */
  function FindIndex<T>(s: seq<T>, p: T -> bool): (r: Option<nat>)
    ensures r.Some? ==> r.value < |s| && p(s[r.value])
    ensures r.Some? ==> forall j :: 0 <= j < r.value ==> !p(s[j])
    ensures r.None? <==> forall j :: 0 <= j < |s| ==> !p(s[j])
  {
    if |s| == 0 then None
    else if p(s[0]) then Some(0)
    else match FindIndex(s[1..], p)
      case None => None
      case Some(k) => Some(k + 1)
  }

  /** `chats.find(chat => chat.id === activeChat)`: the open chat, if any. */
  function CurrentChat(chats: seq<Chat>, activeChat: Option<Id>): (r: Option<Chat>)
    ensures r.Some? ==> r.value in chats && activeChat == Some(r.value.id)
    ensures r.Some? ==>
      (exists i :: 0 <= i < |chats| && r.value == chats[i] && (forall j :: 0 <= j < i ==> chats[j].id != r.value.id))
    ensures r.None? <==> activeChat.None? || activeChat.value !in Ids(chats)
  {
    match activeChat
    case None => None
    case Some(id) =>
      match FindIndex(chats, (c: Chat) => c.id == id)
      case None => None
      case Some(i) => Some(chats[i])
  }

  /** `chats.filter(chat => chat.id !== chatId)`. */
  function RemoveChat(chats: seq<Chat>, chatId: Id): (r: seq<Chat>)
    ensures |r| <= |chats|
    ensures forall i :: 0 <= i < |r| ==> r[i].id != chatId
  {
    if |chats| == 0 then []
    else if chats[0].id == chatId then RemoveChat(chats[1..], chatId)
    else [chats[0]] + RemoveChat(chats[1..], chatId)
  }

  /** The chats left are exactly the chats whose id differs. */
  lemma {:induction false} RemoveChatMembers(chats: seq<Chat>, chatId: Id)
    ensures forall c :: c in RemoveChat(chats, chatId) <==> c in chats && c.id != chatId
  {
    if |chats| > 0 {
      RemoveChatMembers(chats[1..], chatId);
      assert chats == [chats[0]] + chats[1..];
    }
  }

  /** Removal keeps the relative order: removing from a concatenation is
      concatenating the removals. Together with the one-chat case (kept
      exactly when its id differs) this determines the result entirely. */
  lemma {:induction false} RemoveChatDistributes(a: seq<Chat>, b: seq<Chat>, chatId: Id)
    ensures RemoveChat(a + b, chatId) == RemoveChat(a, chatId) + RemoveChat(b, chatId)
  {
    if |a| > 0 {
      assert (a + b)[1..] == a[1..] + b;
      RemoveChatDistributes(a[1..], b, chatId);
    } else {
      assert a + b == b;
    }
  }

  /** A single chat is kept exactly when its id differs. */
  lemma RemoveChatSingle(c: Chat, chatId: Id)
    ensures RemoveChat([c], chatId) == if c.id == chatId then [] else [c]
  {
    assert [c][1..] == [];
  }

  /** Removing an id no chat has changes nothing. */
  lemma {:induction false} RemoveAbsentChat(chats: seq<Chat>, chatId: Id)
    requires chatId !in Ids(chats)
    ensures RemoveChat(chats, chatId) == chats
  {
    if |chats| > 0 {
      assert Ids(chats[1..]) == Ids(chats)[1..];
      RemoveAbsentChat(chats[1..], chatId);
      assert chats == [chats[0]] + chats[1..];
    }
  }

  /** Every id other than the removed one survives the removal. */
  lemma RemoveChatKeepsOtherIds(chats: seq<Chat>, chatId: Id, id: Id)
    requires id in Ids(chats) && id != chatId
    ensures id in Ids(RemoveChat(chats, chatId))
  {
    var i :| 0 <= i < |chats| && Ids(chats)[i] == id;
    var kept := RemoveChat(chats, chatId);
    RemoveChatMembers(chats, chatId);
    assert chats[i] in kept;
    var k :| 0 <= k < |kept| && kept[k] == chats[i];
    assert Ids(kept)[k] == id;
  }

  /** The chat that becomes active when the active chat `chatId` is
      deleted: `chats.length > 1 ? chats.find(c => c.id !== chatId)?.id || null : null`,
      evaluated on the list before the deletion. */
  function NextActive(chats: seq<Chat>, chatId: Id): (r: Option<Id>)
    ensures r.Some? ==> |chats| > 1 && r.value != chatId
    ensures r.Some? ==>
      (exists i :: 0 <= i < |chats| && chats[i].id == r.value && (forall j :: 0 <= j < i ==> chats[j].id == chatId))
    ensures r.None? <==> |chats| <= 1 || forall j :: 0 <= j < |chats| ==> chats[j].id == chatId
  {
    if |chats| > 1 then
      match FindIndex(chats, (c: Chat) => c.id != chatId)
      case None => None
      case Some(i) => Some(chats[i].id)
    else None
  }

  /** The chat chosen by NextActive survives the deletion, so the active
      chat still refers to an existing chat afterwards. */
  lemma NextActiveSurvives(chats: seq<Chat>, chatId: Id)
    ensures NextActive(chats, chatId).Some? ==>
      NextActive(chats, chatId).value in Ids(RemoveChat(chats, chatId))
  {
    var r := NextActive(chats, chatId);
    if r.Some? {
      var i :| 0 <= i < |chats| && chats[i].id == r.value;
      assert Ids(chats)[i] == r.value;
      RemoveChatKeepsOtherIds(chats, chatId, r.value);
    }
  }

  /** The object spread of a user send: the message goes to the end, the
      title is cut from the text only while the chat is still empty, and
      the last-activity time is refreshed. */
  function AddUserMessage(chat: Chat, msg: Message, now: Time): (r: Chat)
    ensures r.id == chat.id && r.messages == chat.messages + [msg] && r.lastMessage == now
    ensures chat.messages == [] ==> r.title == Title(msg.text)
    ensures chat.messages != [] ==> r.title == chat.title
  {
    chat.(messages := chat.messages + [msg],
          title := if |chat.messages| == 0 then Title(msg.text) else chat.title,
          lastMessage := now)
  }

  /** The object spread of a reply: the message goes to the end; the title
      and the last-activity time are left as they were. */
  function AddReply(chat: Chat, msg: Message): (r: Chat)
    ensures r.id == chat.id && r.messages == chat.messages + [msg]
    ensures r.title == chat.title && r.lastMessage == chat.lastMessage
  {
    chat.(messages := chat.messages + [msg])
  }

  /** `prevChats.map(chat => chat.id === target ? AddUserMessage(chat) : chat)`:
      every chat with the target id gets the message; the others, and the
      order and ids of the list, stay as they were. */
  function AppendUserMessage(chats: seq<Chat>, target: Id, msg: Message, now: Time): (r: seq<Chat>)
    ensures |r| == |chats| && Ids(r) == Ids(chats)
    ensures forall i :: 0 <= i < |chats| && chats[i].id != target ==> r[i] == chats[i]
    ensures forall i :: 0 <= i < |chats| && chats[i].id == target ==>
      && r[i].messages == chats[i].messages + [msg]
      && r[i].lastMessage == now
      && r[i].title == (if chats[i].messages == [] then Title(msg.text) else chats[i].title)
  {
    seq(|chats|, i requires 0 <= i < |chats| =>
      if chats[i].id == target then AddUserMessage(chats[i], msg, now) else chats[i])
  }

  /** `prevChats.map(chat => chat.id === target ? AddReply(chat) : chat)`. */
  function AppendReply(chats: seq<Chat>, target: Id, msg: Message): (r: seq<Chat>)
    ensures |r| == |chats| && Ids(r) == Ids(chats)
    ensures forall i :: 0 <= i < |chats| && chats[i].id != target ==> r[i] == chats[i]
    ensures forall i :: 0 <= i < |chats| && chats[i].id == target ==>
      && r[i].messages == chats[i].messages + [msg]
      && r[i].title == chats[i].title
      && r[i].lastMessage == chats[i].lastMessage
  {
    seq(|chats|, i requires 0 <= i < |chats| =>
      if chats[i].id == target then AddReply(chats[i], msg) else chats[i])
  }

  /** Sending to an id that no chat has leaves the list untouched. */
  lemma AppendToAbsentChat(chats: seq<Chat>, target: Id, msg: Message, now: Time)
    requires target !in Ids(chats)
    ensures AppendUserMessage(chats, target, msg, now) == chats
    ensures AppendReply(chats, target, msg) == chats
  {
  }

  /** The title a chat carries is the one its history calls for: the
      placeholder until a user message starts it, then the title cut from
      that first message, never recomputed. */
  predicate TitleConsistent(c: Chat) {
    if |c.messages| > 0 && c.messages[0].isUser then c.title == Title(c.messages[0].text)
    else c.title == Placeholder
  }

  predicate AllTitlesConsistent(chats: seq<Chat>) {
    forall i :: 0 <= i < |chats| ==> TitleConsistent(chats[i])
  }

  /** Appending a user message, or a reply (which is never the user's),
      keeps every title consistent with its chat's first message: the title
      is set once, by the first user message. */
  lemma AppendsKeepTitles(chats: seq<Chat>, target: Id, msg: Message, now: Time)
    requires AllTitlesConsistent(chats)
    ensures msg.isUser ==> AllTitlesConsistent(AppendUserMessage(chats, target, msg, now))
    ensures !msg.isUser ==> AllTitlesConsistent(AppendReply(chats, target, msg))
  {
    var u := AppendUserMessage(chats, target, msg, now);
    var a := AppendReply(chats, target, msg);
    forall i | 0 <= i < |chats|
      ensures msg.isUser ==> TitleConsistent(u[i])
      ensures !msg.isUser ==> TitleConsistent(a[i])
    {
      assert TitleConsistent(chats[i]);
      if chats[i].messages != [] {
        assert u[i].messages[0] == chats[i].messages[0];
        assert a[i].messages[0] == chats[i].messages[0];
      }
    }
  }

  /** Removing chats keeps the titles of the remaining ones consistent. */
  lemma RemoveChatKeepsTitles(chats: seq<Chat>, chatId: Id)
    requires AllTitlesConsistent(chats)
    ensures AllTitlesConsistent(RemoveChat(chats, chatId))
  {
    var kept := RemoveChat(chats, chatId);
    RemoveChatMembers(chats, chatId);
    forall k | 0 <= k < |kept| ensures TitleConsistent(kept[k]) {
      assert kept[k] in chats;
    }
  }

  /** The sequence the component goes through on its first send: create a chat, send "hi", receive a reply. The chat then
      holds two messages and is titled "hi...". */
  lemma FirstExchange(id: Id, now: Time, userId: Id, replyId: Id, reply: string)
    ensures var chats := AppendReply(
              AppendUserMessage([NewChat(id, now)], id, Message(userId, "hi", true, now), now),
              id, Message(replyId, reply, false, now));
      && |chats| == 1 && |chats[0].messages| == 2
      && chats[0].title == "hi..."
      && chats[0].messages[0].isUser && !chats[0].messages[1].isUser
  {
  }

  /** When no chat is active, the send targets `Date.now()` read a second
      time, after the new chat took its id. */
  function SendTarget(activeChat: Option<Id>, clockId: Id): Id
  {
    match activeChat
    case Some(id) => id
    case None => clockId
  }

  /** The list after a send of the non-blank `text`: when no chat is
      active a new chat is put in front first, then the message is appended
      to the chat the send targets. */
  function SentChats(chats: seq<Chat>, activeChat: Option<Id>, text: string,
                     newChatId: Id, clockId: Id, messageId: Id, now: Time): seq<Chat>
  {
    var created := if activeChat.None? then [NewChat(newChatId, now)] + chats else chats;
    AppendUserMessage(created, SendTarget(activeChat, clockId), Message(messageId, text, true, now), now)
  }

  /** What a send does to the list. With a chat open, only that chat gets
      the message. With none, a chat with the new id is put in front; it
      holds the message, and takes its title, exactly when the second clock
      reading is its own id, and stays empty otherwise; the older chats get
      the message as that reading says. */
  lemma SentChatsShape(chats: seq<Chat>, activeChat: Option<Id>, text: string,
                       newChatId: Id, clockId: Id, messageId: Id, now: Time)
    ensures var r := SentChats(chats, activeChat, text, newChatId, clockId, messageId, now);
      var msg := Message(messageId, text, true, now);
      && (activeChat.Some? ==> r == AppendUserMessage(chats, activeChat.value, msg, now))
      && (activeChat.None? ==> |r| == |chats| + 1 && r[1..] == AppendUserMessage(chats, clockId, msg, now))
      && (activeChat.None? && clockId == newChatId ==> r[0] == AddUserMessage(NewChat(newChatId, now), msg, now))
      && (activeChat.None? && clockId != newChatId ==> r[0] == NewChat(newChatId, now))
  {
    var msg := Message(messageId, text, true, now);
    if activeChat.None? {
      var created := [NewChat(newChatId, now)] + chats;
      var r := AppendUserMessage(created, clockId, msg, now);
      var rest := AppendUserMessage(chats, clockId, msg, now);
      forall i | 0 <= i < |chats| ensures r[1..][i] == rest[i] {
        assert created[i + 1] == chats[i];
      }
    }
  }

  /** As written, a first send made when the clock has moved on between the
      two `Date.now()` readings misses the chat it has just created: the
      new chat stays empty with the placeholder title, and the message is
      dropped. */
  lemma FirstSendMissesNewChat(chats: seq<Chat>, text: string, newChatId: Id, clockId: Id, messageId: Id, now: Time)
    requires clockId != newChatId && clockId !in Ids(chats)
    ensures var after := SentChats(chats, None, text, newChatId, clockId, messageId, now);
      after == [NewChat(newChatId, now)] + chats && after[0].messages == [] && after[0].title == Placeholder
  {
    var before := [NewChat(newChatId, now)] + chats;
    assert Ids(before) == [newChatId] + Ids(chats);
    AppendToAbsentChat(before, clockId, Message(messageId, text, true, now), now);
  }

  /** Targeting the id of the chat just created, as intended, delivers the
      first message into it: it becomes that chat's only message and gives
      it its title, and the older chats are untouched. */
  lemma FirstSendToNewChat(chats: seq<Chat>, text: string, newChatId: Id, messageId: Id, now: Time)
    requires newChatId !in Ids(chats)
    ensures var after := SentChats(chats, None, text, newChatId, newChatId, messageId, now);
      && after[0].messages == [Message(messageId, text, true, now)]
      && after[0].title == Title(text)
      && after[1..] == chats
  {
    SentChatsShape(chats, None, text, newChatId, newChatId, messageId, now);
    AppendToAbsentChat(chats, newChatId, Message(messageId, text, true, now), now);
  }
}
