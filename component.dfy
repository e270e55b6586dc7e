/** The chat component's state and the handlers that change it: creating,
    selecting and deleting chats, typing, sending, and the delayed reply. */
module Component {
  import opened Chats
  import Text
  import Replies

  /** `!(!input.trim() || isTyping)`: the send button is enabled exactly
      when the input holds a non-whitespace character and no reply is pending. */
  function SendEnabled(input: string, isTyping: bool): (r: bool)
    ensures r <==> !Text.AllWhitespace(input) && !isTyping
  {
    !(Text.IsBlank(input) || isTyping)
  }

  /** `e.key === 'Enter' && !e.shiftKey`: the key presses that send. With
      Shift held no key sends (Shift+Enter is left to the text area);
      without it, Enter and only Enter does. */
  function SendsOnKey(key: string, shiftKey: bool): (r: bool)
    ensures shiftKey ==> !r
    ensures !shiftKey ==> (r <==> key == "Enter")
  {
    key == "Enter" && !shiftKey
  }

  /** The active chat, when set, is one of the chats. */
  predicate ActiveExists(chats: seq<Chat>, activeChat: Option<Id>) {
    activeChat.Some? ==> activeChat.value in Ids(chats)
  }

  class ChatInterface {
    var chats: seq<Chat>
    var activeChat: Option<Id>
    var input: string
    var isTyping: bool

    /** The active chat exists and every title is the one its chat's
        history calls for. */
    ghost predicate Valid()
      reads this
    {
      ActiveExists(chats, activeChat) && AllTitlesConsistent(chats)
    }

    /** The component's initial state: no chats, nothing active, nothing typed. */
    constructor ()
      ensures Valid()
      ensures chats == [] && activeChat == None && input == "" && !isTyping
    {
      chats := [];
      activeChat := None;
      input := "";
      isTyping := false;
    }

    /** The composer's change handler. */
    method SetInput(text: string)
      requires Valid()
      modifies this`input
      ensures Valid() && input == text
    {
      input := text;
    }

    /** A click on a chat in the sidebar, which only lists existing chats. */
    method SelectChat(id: Id)
      requires Valid() && id in Ids(chats)
      modifies this`activeChat
      ensures Valid() && activeChat == Some(id)
    {
      activeChat := Some(id);
    }

    /** Puts a new empty chat in front of the others and opens it. */
    method CreateNewChat(id: Id, now: Time)
      requires Valid()
      modifies this`chats, this`activeChat
      ensures Valid()
      ensures chats == [NewChat(id, now)] + old(chats) && activeChat == Some(id)
    {
      chats := [NewChat(id, now)] + chats;
      activeChat := Some(id);
      assert Ids(chats)[0] == id;
    }

    /** Removes every chat with the id; when it was the open one, opens the
        first other chat of the old list, or none when the old list held a
        single chat. */
    method DeleteChat(chatId: Id)
      requires Valid()
      modifies this`chats, this`activeChat
      ensures Valid()
      ensures chats == RemoveChat(old(chats), chatId)
      ensures activeChat == if old(activeChat) == Some(chatId) then NextActive(old(chats), chatId)
                            else old(activeChat)
    {
      var previous := chats;
      RemoveChatKeepsTitles(previous, chatId);
      chats := RemoveChat(chats, chatId);
      if activeChat == Some(chatId) {
        NextActiveSurvives(previous, chatId);
        activeChat := NextActive(previous, chatId);
      } else if activeChat.Some? {
        RemoveChatKeepsOtherIds(previous, chatId, activeChat.value);
      }
    }

    /** The send handler up to the scheduling of the reply. A blank input
        changes nothing and schedules nothing. Otherwise, with no chat open
        a new chat is created first; the message goes to the send's target
        (see SendTarget), the input is cleared and a reply becomes pending
        for that target, which is returned. */
    method SendMessage(newChatId: Id, clockId: Id, messageId: Id, now: Time) returns (pending: Option<Id>)
      requires Valid()
      modifies this`chats, this`activeChat, this`input, this`isTyping
      ensures Valid()
      ensures Text.IsBlank(old(input)) ==>
        && pending == None
        && chats == old(chats) && activeChat == old(activeChat)
        && input == old(input) && isTyping == old(isTyping)
      ensures !Text.IsBlank(old(input)) ==>
        && pending == Some(SendTarget(old(activeChat), clockId))
        && chats == SentChats(old(chats), old(activeChat), old(input), newChatId, clockId, messageId, now)
        && activeChat == (if old(activeChat).None? then Some(newChatId) else old(activeChat))
        && input == "" && isTyping
    {
      if Text.IsBlank(input) {
        return None;
      }
      var currentChat: Id;
      if activeChat.None? {
        CreateNewChat(newChatId, now);
        currentChat := clockId;
      } else {
        currentChat := activeChat.value;
      }
      var userMessage := Message(messageId, input, true, now);
      AppendsKeepTitles(chats, currentChat, userMessage, now);
      chats := AppendUserMessage(chats, currentChat, userMessage, now);
      input := "";
      isTyping := true;
      pending := Some(currentChat);
    }

    /** The delayed half of a send: a canned reply, chosen by the draw `u`,
        is appended to the target chat and the typing indicator is cleared. */
    method ReceiveReply(target: Id, replyId: Id, u: real, now: Time)
      requires Valid() && 0.0 <= u < 1.0
      modifies this`chats, this`isTyping
      ensures Valid() && !isTyping
      ensures chats == AppendReply(old(chats), target, Message(replyId, Replies.GetRandomResponse(u), false, now))
    {
      var aiMessage := Message(replyId, Replies.GetRandomResponse(u), false, now);
      AppendsKeepTitles(chats, target, aiMessage, now);
      chats := AppendReply(chats, target, aiMessage);
      isTyping := false;
    }

    /** The composer's key handler: Enter without Shift sends, whether or
        not a reply is pending; any other key changes nothing. */
    method HandleKeyPress(key: string, shiftKey: bool, newChatId: Id, clockId: Id, messageId: Id, now: Time)
      returns (pending: Option<Id>)
      requires Valid()
      modifies this`chats, this`activeChat, this`input, this`isTyping
      ensures Valid()
      ensures !SendsOnKey(key, shiftKey) || Text.IsBlank(old(input)) ==>
        && pending == None
        && chats == old(chats) && activeChat == old(activeChat)
        && input == old(input) && isTyping == old(isTyping)
      ensures SendsOnKey(key, shiftKey) && !Text.IsBlank(old(input)) ==>
        && pending == Some(SendTarget(old(activeChat), clockId))
        && chats == SentChats(old(chats), old(activeChat), old(input), newChatId, clockId, messageId, now)
        && activeChat == (if old(activeChat).None? then Some(newChatId) else old(activeChat))
        && input == "" && isTyping
    {
      if SendsOnKey(key, shiftKey) {
        pending := SendMessage(newChatId, clockId, messageId, now);
      } else {
        pending := None;
      }
    }
  }
}
