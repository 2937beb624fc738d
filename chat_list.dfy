/** The conversation list: which sessions it shows, in what order, and how each is previewed. */
module ChatList {
  import opened Wrappers
  import opened GraphTypes

  datatype ChatSession = ChatSession(id: string, nodeId: NodeId, nodeTitle: string, messages: seq<ChatMessage>, createdAt: int)

  /** One button of the list. */
  datatype ListItem = ListItem(chatId: string, title: string, preview: string, isActive: bool)

  /** The empty-state message, or the list of buttons. */
  datatype ListView = NoConversations | Conversations(items: seq<ListItem>)

  const PreviewLength: nat := 60
  const Ellipsis: string := "..."
  const NewConversation: string := "New conversation"

  /** The first 60 characters, with an ellipsis when anything was cut. */
  function TruncatePreview(content: string): (preview: string)
    ensures |content| <= PreviewLength ==> preview == content
    ensures |content| > PreviewLength ==>
      |preview| == PreviewLength + |Ellipsis| &&
      preview[..PreviewLength] == content[..PreviewLength] && preview[PreviewLength..] == Ellipsis
  {
    content[..Min(PreviewLength, |content|)] + (if |content| > PreviewLength then Ellipsis else "")
  }

  /** A session previews as its last message, or as a new conversation when it has none. */
  function SessionPreview(session: ChatSession): (preview: string)
    ensures session.messages == [] ==> preview == NewConversation
    ensures session.messages != [] ==> preview == TruncatePreview(session.messages[|session.messages| - 1].content)
  {
    if session.messages == [] then NewConversation
    else TruncatePreview(session.messages[|session.messages| - 1].content)
  }

  /** The buttons, in list order, for the ids that have a session; the others are skipped. */
  function Items(sessions: map<string, ChatSession>, order: seq<string>, activeChatId: Option<string>)
    : (items: seq<ListItem>)
    ensures |items| <= |order|
    ensures forall it :: it in items ==>
      it.chatId in order && it.chatId in sessions &&
      it.title == sessions[it.chatId].nodeTitle &&
      it.preview == SessionPreview(sessions[it.chatId]) &&
      (it.isActive <==> activeChatId == Some(it.chatId))
    decreases |order|
  {
    if order == [] then []
    else
      var id := order[0];
      var rest := Items(sessions, order[1..], activeChatId);
      assert forall it :: it in rest ==> it.chatId in order by {
        forall it | it in rest ensures it.chatId in order {
          assert it.chatId in order[1..];
        }
      }
      if id in sessions then
        [ListItem(id, sessions[id].nodeTitle, SessionPreview(sessions[id]), Some(id) == activeChatId)] + rest
      else rest
  }

  /** The list view: the empty state exactly when the list order is empty. */
  function ChatListView(sessions: map<string, ChatSession>, order: seq<string>, activeChatId: Option<string>)
    : (view: ListView)
    ensures view.NoConversations? <==> order == []
    ensures view.Conversations? ==> view.items == Items(sessions, order, activeChatId)
  {
    if order == [] then NoConversations else Conversations(Items(sessions, order, activeChatId))
  }

  /** Every listed id that has a session gets a button. */
  lemma {:induction false} ItemsComplete(sessions: map<string, ChatSession>, order: seq<string>,
                                         activeChatId: Option<string>, id: string)
    requires id in order && id in sessions
    ensures exists it :: it in Items(sessions, order, activeChatId) && it.chatId == id
    decreases |order|
  {
    if order[0] != id {
      var j :| 0 <= j < |order| && order[j] == id;
      assert order[1..][j - 1] == id;
      ItemsComplete(sessions, order[1..], activeChatId, id);
      var it :| it in Items(sessions, order[1..], activeChatId) && it.chatId == id;
      if order[0] in sessions {
        ItemsCons(sessions, order, activeChatId);
      }
    } else {
      ItemsCons(sessions, order, activeChatId);
    }
  }

  /** Unfolds one step of the list: the first id's button, if it has a session, then the rest. */
  lemma ItemsCons(sessions: map<string, ChatSession>, order: seq<string>, activeChatId: Option<string>)
    requires order != []
    ensures order[0] in sessions ==>
      Items(sessions, order, activeChatId) ==
        [ListItem(order[0], sessions[order[0]].nodeTitle, SessionPreview(sessions[order[0]]),
                  Some(order[0]) == activeChatId)] + Items(sessions, order[1..], activeChatId)
    ensures order[0] !in sessions ==> Items(sessions, order, activeChatId) == Items(sessions, order[1..], activeChatId)
  {
  }

  /** The list keeps the order of `chatListOrder`: listing a concatenation concatenates. */
  lemma {:induction false} ItemsAppend(sessions: map<string, ChatSession>, a: seq<string>, b: seq<string>,
                                       activeChatId: Option<string>)
    ensures Items(sessions, a + b, activeChatId) == Items(sessions, a, activeChatId) + Items(sessions, b, activeChatId)
    decreases |a|
  {
    if a == [] {
      assert a + b == b;
    } else {
      assert (a + b)[0] == a[0] && (a + b)[1..] == a[1..] + b;
      ItemsAppend(sessions, a[1..], b, activeChatId);
    }
  }

  /** When every id has a session, button `i` is for `chatListOrder[i]`. */
  lemma {:induction false} ItemsAllPresent(sessions: map<string, ChatSession>, order: seq<string>,
                                           activeChatId: Option<string>)
    requires forall i :: 0 <= i < |order| ==> order[i] in sessions
    ensures |Items(sessions, order, activeChatId)| == |order|
    ensures forall i :: 0 <= i < |order| ==> Items(sessions, order, activeChatId)[i].chatId == order[i]
    decreases |order|
  {
    if order != [] {
      ItemsAllPresent(sessions, order[1..], activeChatId);
    }
  }

  /** With no repeated ids in the list order, at most one button is active. */
  lemma {:induction false} AtMostOneActive(sessions: map<string, ChatSession>, order: seq<string>,
                                           activeChatId: Option<string>)
    requires forall i, j :: 0 <= i < j < |order| ==> order[i] != order[j]
    ensures forall i, j :: 0 <= i < j < |Items(sessions, order, activeChatId)| ==>
      !(Items(sessions, order, activeChatId)[i].isActive && Items(sessions, order, activeChatId)[j].isActive)
    decreases |order|
  {
    if order != [] {
      var rest := order[1..];
      var items := Items(sessions, order, activeChatId);
      var restItems := Items(sessions, rest, activeChatId);
      assert forall i, j :: 0 <= i < j < |rest| ==> rest[i] != rest[j] by {
        forall i, j | 0 <= i < j < |rest| ensures rest[i] != rest[j] {
          assert rest[i] == order[i + 1] && rest[j] == order[j + 1];
        }
      }
      AtMostOneActive(sessions, rest, activeChatId);
      if order[0] in sessions {
        forall i, j | 0 <= i < j < |items|
          ensures !(items[i].isActive && items[j].isActive)
        {
          ItemsTail(sessions, order, activeChatId, j);
          if i == 0 {
            HeadNotRepeated(sessions, order, activeChatId, restItems[j - 1]);
          } else {
            ItemsTail(sessions, order, activeChatId, i);
          }
        }
      } else {
        assert items == restItems;
      }
    }
  }

  /** Past the first button, the list is the list of the remaining ids. */
  lemma ItemsTail(sessions: map<string, ChatSession>, order: seq<string>, activeChatId: Option<string>, k: nat)
    requires order != [] && order[0] in sessions && 1 <= k < |Items(sessions, order, activeChatId)|
    ensures Items(sessions, order, activeChatId)[k] == Items(sessions, order[1..], activeChatId)[k - 1]
  {
    ItemsCons(sessions, order, activeChatId);
  }

  lemma HeadNotRepeated(sessions: map<string, ChatSession>, order: seq<string>, activeChatId: Option<string>,
                        it: ListItem)
    requires order != [] && forall i, j :: 0 <= i < j < |order| ==> order[i] != order[j]
    requires it in Items(sessions, order[1..], activeChatId)
    ensures it.chatId != order[0]
  {
    var k :| 0 <= k < |order[1..]| && order[1..][k] == it.chatId;
    assert order[k + 1] == it.chatId;
  }
}
