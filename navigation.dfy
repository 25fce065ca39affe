/** The view state of src/pages/Index.tsx: the `activeTab`, `searchQuery` and `selectedChat`
    hooks, their click handlers, and the display rules that read them. */
module Navigation {

  datatype Option<T> = None | Some(value: T)

  /** The values `activeTab` ever holds: the three `TabsTrigger` values and the three
      bottom-button handlers all use these strings. */
  datatype Tab = ChatsTab | StatusTab | CallsTab

  /** The four bottom buttons; the last one (the profile icon) has no click handler. */
  datatype BottomButton = ChatsButton | StatusButton | CallsButton | ProfileButton

  datatype Chat = Chat(id: int, name: string, avatar: string, lastMessage: string, time: string, unread: int, online: bool)

  datatype Status = Status(id: int, name: string, avatar: string, time: string, viewed: bool)

  /** The tab a bottom button switches to, if it has a handler. */
  function ButtonTab(b: BottomButton): (t: Option<Tab>)
    ensures t.None? <==> b == ProfileButton
  {
    match b
    case ChatsButton => Some(ChatsTab)
    case StatusButton => Some(StatusTab)
    case CallsButton => Some(CallsTab)
    case ProfileButton => None
  }

  /** The `Index` component's state hooks. `selectedChat` is `null` when no conversation is open. */
  class ViewState {
    var activeTab: Tab
    var searchQuery: string
    var selectedChat: Option<int>

    /** The initial values passed to `useState`. */
    constructor ()
      ensures activeTab == ChatsTab && searchQuery == "" && selectedChat == None
    {
      activeTab := ChatsTab;
      searchQuery := "";
      selectedChat := None;
    }

    /** `setActiveTab`, called by the tab strip's `onValueChange`; nothing else changes. */
    method SelectTab(t: Tab)
      modifies this
      ensures activeTab == t
      ensures searchQuery == old(searchQuery) && selectedChat == old(selectedChat)
    {
      activeTab := t;
    }

    /** A click on a bottom button: the first three set `activeTab` to their own tab,
        the profile button does nothing. */
    method PressBottomButton(b: BottomButton)
      modifies this
      ensures ButtonTab(b).Some? ==> activeTab == ButtonTab(b).value && IconHighlighted(b)
      ensures ButtonTab(b).None? ==> activeTab == old(activeTab)
      ensures searchQuery == old(searchQuery) && selectedChat == old(selectedChat)
    {
      match ButtonTab(b)
      case Some(t) => SelectTab(t);
      case None =>
    }

    /** `setSearchQuery`, called on every edit of the search box. */
    method SetSearchQuery(q: string)
      modifies this
      ensures searchQuery == q
      ensures activeTab == old(activeTab) && selectedChat == old(selectedChat)
    {
      searchQuery := q;
    }

    /** A click on a chat card selects that chat; nothing else changes. */
    method ClickChat(chat: Chat)
      modifies this
      ensures selectedChat == Some(chat.id) && ChatHighlighted(chat)
      ensures activeTab == old(activeTab) && searchQuery == old(searchQuery)
    {
      selectedChat := Some(chat.id);
    }

    /** `selectedChat === chat.id`: the card gets the highlighted background. */
    predicate ChatHighlighted(chat: Chat)
      reads this
      ensures selectedChat == None ==> !ChatHighlighted(chat)
    {
      selectedChat == Some(chat.id)
    }

    /** `activeTab === value`: the bottom icon is drawn in the primary colour. */
    predicate IconHighlighted(b: BottomButton)
      reads this
      ensures IconHighlighted(b) ==> b != ProfileButton
    {
      ButtonTab(b) == Some(activeTab)
    }
  }

  /** No two chats share an id. */
  predicate UniqueIds(chats: seq<Chat>)
  {
    forall i, j :: 0 <= i < j < |chats| ==> chats[i].id != chats[j].id
  }

  /** When chat ids are unique, a highlighted card is the only highlighted one. */
  lemma AtMostOneChatHighlighted(v: ViewState, chats: seq<Chat>, i: int)
    requires UniqueIds(chats)
    requires 0 <= i < |chats| && v.ChatHighlighted(chats[i])
    ensures forall j :: 0 <= j < |chats| && v.ChatHighlighted(chats[j]) ==> j == i
  {
  }

  /** Exactly one of the three tab icons is highlighted, and never the profile icon. */
  lemma ExactlyOneIconHighlighted(v: ViewState)
    ensures !v.IconHighlighted(ProfileButton)
    ensures v.IconHighlighted(ChatsButton) <==> v.activeTab == ChatsTab
    ensures v.IconHighlighted(StatusButton) <==> v.activeTab == StatusTab
    ensures v.IconHighlighted(CallsButton) <==> v.activeTab == CallsTab
    ensures forall b1, b2 :: v.IconHighlighted(b1) && v.IconHighlighted(b2) ==> b1 == b2
    ensures exists b :: v.IconHighlighted(b)
  {
    match v.activeTab
    case ChatsTab => assert v.IconHighlighted(ChatsButton);
    case StatusTab => assert v.IconHighlighted(StatusButton);
    case CallsTab => assert v.IconHighlighted(CallsButton);
  }

  datatype Ring = PrimaryRing | GreyRing

  /** How a status card is drawn: its avatar ring, whether the "+" badge is shown,
      and whether it has the thicker bottom border. */
  datatype StatusCard = StatusCard(ring: Ring, addBadge: bool, thickBorder: bool)

  /** The card at position `index` of the status list. Position 0 is the user's own
      "add a status" entry, recognised only by its position. */
  function StatusCardAt(statuses: seq<Status>, index: nat): (c: StatusCard)
    requires index < |statuses|
    ensures c.addBadge <==> index == 0
    ensures c.thickBorder <==> index == 0
    ensures c.ring == GreyRing <==> index != 0 && statuses[index].viewed
  {
    var first := index == 0;
    StatusCard(
      if first then PrimaryRing else if statuses[index].viewed then GreyRing else PrimaryRing,
      first,
      first)
  }

  /** The first entry is drawn as the user's own status whatever its `viewed` flag, and
      reordering the list moves that role to whatever lands first. */
  lemma FirstStatusIsSelf(statuses: seq<Status>, s: Status)
    requires |statuses| > 0
    ensures StatusCardAt(statuses, 0) == StatusCard(PrimaryRing, true, true)
    ensures StatusCardAt([s] + statuses, 1).addBadge == false
  {
  }
}
