# Messenger UI clone: search filters, initials and view state

The repository is a client-side mock of a messenger (chat list, statuses, calls, contacts,
groups, profile). Almost all of it renders fixed sample data. The logic that can be stated is
small; this project models the parts below, and "## Left out" names the display rules it does not:

- **Search filters** (`src/components/ContactsGroupsPages.tsx`). The contacts page keeps a
  contact when its lower-cased name includes the lower-cased query, or when its phone includes
  the query exactly as typed. The groups page keeps a group when its lower-cased name or
  lower-cased description includes the lower-cased query. Each page shows a header with the
  unfiltered count, and shows a "not found" block exactly when nothing matched. Module `Search`
  models the filters as pure functions over sequences. Module `Strings` models `includes` as a
  substring predicate.
- **Initials** (`getInitials`, `src/pages/Index.tsx:81-83`). The name is split on the single
  character `' '`. The first character of each token is taken, the results are joined, and the
  whole is upper-cased. An empty token has no first character (`undefined`), and `join` renders
  that as nothing. Module `Initials` models `split`/`join` with both round trips proved. It also
  proves that the split-based computation equals an independent reference (`WordStarts`): the
  non-space characters that start the name or follow a space.
- **View state** (`src/pages/Index.tsx:47-49`). The `activeTab`, `searchQuery` and
  `selectedChat` hooks become the fields of class `Navigation.ViewState`. Their handlers (the
  tab strip's and the bottom buttons' clicks, the search box's `onChange`, a chat card's click)
  become methods that update one field and leave the others alone. The profile button
  (`src/pages/Index.tsx:244`) has no handler, so `PressBottomButton(ProfileButton)` updates
  nothing. The display rules that read
  the state are predicates: the chat-card highlight, the bottom-icon highlight, and the
  position-0 rules of the status list.

Case mapping is not modelled. `toLowerCase` and `toUpperCase` are passed in as function
parameters `lower` and `upper` of type `string -> string`. The only fact used about `lower` is
that it maps `""` to `""`, and only in `Search.EmptyQueryKeepsAllGroups`. Strings are
`seq<char>`.

Two behaviours of the code worth noting:

- The phone test is case-sensitive: only the name and the query are lower-cased
  (`src/components/ContactsGroupsPages.tsx:52-53`).
- Leading, trailing or doubled spaces give empty tokens, and these contribute nothing, so
  `" Анна  Петрова "` has the same initials as `"Анна Петрова"`.

## Model

| member | source | states |
|---|---|---|
| Strings.Contains | src/components/ContactsGroupsPages.tsx:52-53 | `includes` (also used at lines 137-138) as a recursive predicate: `t` is a prefix of `s` or of one of its suffixes; a string includes only queries no longer than itself |
| Strings.ContainsAt | src/components/ContactsGroupsPages.tsx:52-53 | the `includes` test holds exactly when some suffix of the string starts with the query |
| Strings.ContainsEmpty | src/components/ContactsGroupsPages.tsx:53 | every string includes the empty query |
| Search.Filter | src/components/ContactsGroupsPages.tsx:51 | `Array.filter` keeps at most as many elements as its input; an element is in the result iff it is in the input and passes; each passing element keeps its multiplicity, each failing one is dropped |
| Search.FilterIsSubsequence | src/components/ContactsGroupsPages.tsx:51 | the filter result is a subsequence of its input, so the relative order is kept |
| Search.FilterKeepsAll | src/components/ContactsGroupsPages.tsx:51 | when every element passes, the filter returns its input unchanged |
| Search.FilterIdempotent | src/components/ContactsGroupsPages.tsx:51 | filtering twice with the same predicate equals filtering once |
| Search.ContactMatches | src/components/ContactsGroupsPages.tsx:51-53 | the contact test (lower(name) includes lower(query), or the phone includes the raw query); the empty query matches every contact, and so does any query the phone includes, whatever lower-casing does |
| Search.GroupMatches | src/components/ContactsGroupsPages.tsx:136-138 | the group test (lower(name) or lower(description) includes lower(query)); every group matches a query that lower-cases to "" |
| Search.FilteredContacts | src/components/ContactsGroupsPages.tsx:51-54 | `filteredContacts` is an order-preserving subsequence of the contacts, no longer than them; a contact is in it iff lower(name) includes lower(query) or the phone includes the raw query, and each matching contact appears as often as in the input |
| Search.FilteredGroups | src/components/ContactsGroupsPages.tsx:136-139 | `filteredGroups` is an order-preserving subsequence of the groups, no longer than them; a group is in it iff lower(name) or lower(description) includes lower(query), and each matching group appears as often as in the input |
| Search.EmptyQueryKeepsAllContacts | src/components/ContactsGroupsPages.tsx:51-54 | the empty query keeps every contact, in order, whatever lower-casing does |
| Search.EmptyQueryKeepsAllGroups | src/components/ContactsGroupsPages.tsx:136-139 | the empty query keeps every group, in order, given that lower-casing "" yields "" |
| Search.ContactsFilterIdempotent | src/components/ContactsGroupsPages.tsx:51-54 | searching the found contacts again with the same query finds all of them |
| Search.GroupsFilterIdempotent | src/components/ContactsGroupsPages.tsx:136-139 | searching the found groups again with the same query finds all of them |
| Search.ContactsPage | src/components/ContactsGroupsPages.tsx:84-122 | The page's header count is the number of all contacts, its cards are the filtered contacts, and its "not found" block is shown exactly when that list is empty, which is exactly when no contact matches. |
| Search.GroupsPage | src/components/ContactsGroupsPages.tsx:169-209 | The page's header count is the number of all groups, its cards are the filtered groups, and its "not found" block is shown exactly when that list is empty, which is exactly when no group matches. |
| Initials.Split | src/pages/Index.tsx:82 | `split(' ')` yields one more token than the name has spaces, and no token contains a space |
| Initials.JoinSplit | src/pages/Index.tsx:82 | joining the tokens of a split with the same separator restores the name |
| Initials.SplitJoin | src/pages/Index.tsx:82 | splitting the join of separator-free tokens gives those tokens back |
| Initials.SplitAfterPlainPrefix | src/pages/Index.tsx:82 | a separator-free prefix is glued onto the first token of the rest |
| Initials.SplitWithoutSeparator | src/pages/Index.tsx:82 | only the separator splits: a string without it is a single token |
| Initials.FirstChar | src/pages/Index.tsx:82 | `n[0]` as `join` renders it: one character, the token's first, for a non-empty token, and nothing for an empty one |
| Initials.FirstChars | src/pages/Index.tsx:82 | `map(n => n[0]).join('')` yields exactly one character per non-empty token |
| Initials.WordStarts | src/pages/Index.tsx:82 | the reference reading of the initials never contains a space |
| Initials.FirstCharsAreWordStarts | src/pages/Index.tsx:82 | the split-based initials equal the non-space characters that open the name or follow a space |
| Initials.RawInitials | src/pages/Index.tsx:82 | before upper-casing, the initials are the token-opening characters in order; their count equals the number of non-empty tokens, at most the number of spaces plus one; they hold no space |
| Initials.GetInitials | src/pages/Index.tsx:81-83 | `getInitials` is the upper-casing of the token-opening characters of the name |
| Initials.EmptyNameHasNoInitials | src/pages/Index.tsx:82 | the empty name has empty raw initials, and `getInitials("")` is `""` given that upper-casing `""` yields `""` |
| Initials.SpacesHaveNoWordStarts | src/pages/Index.tsx:82 | a run of spaces contributes no character to the reference reading, whatever precedes it |
| Initials.OnlySpacesHasNoInitials | src/pages/Index.tsx:82 | a name made only of spaces has empty raw initials, and its `getInitials` is `""` given that upper-casing `""` yields `""` |
| Initials.SingleTokenInitial | src/pages/Index.tsx:82 | a non-empty name without `' '` is one token and its raw initials are its first character; tabs do not split |
| Initials.TwoWordTokens | src/pages/Index.tsx:82 | "Иван Иванов" splits into "Иван" and "Иванов" |
| Initials.TwoWordFirstChars | src/pages/Index.tsx:82 | the tokens "Иван" and "Иванов" give the first characters "ИИ" |
| Initials.TwoWordExample | src/pages/Index.tsx:81-83 | `getInitials("Иван Иванов")` is the upper-casing of "ИИ" |
| Initials.OneWordExample | src/pages/Index.tsx:81-83 | `getInitials("Мария")` is the upper-casing of "М" |
| Initials.SpacedTokens | src/pages/Index.tsx:82 | " Анна  Петрова " splits into five tokens, three of them empty |
| Initials.SpacedFirstChars | src/pages/Index.tsx:82 | the tokens "", "Анна", "", "Петрова", "" give the first characters "АП" |
| Initials.SpacingExample | src/pages/Index.tsx:82 | the raw initials of " Анна  Петрова " are "АП": empty tokens add nothing |
| Initials.TabExample | src/pages/Index.tsx:82 | the raw initials of "Анна\tПетрова" are "А": a tab does not split |
| Navigation.ButtonTab | src/pages/Index.tsx:235-244 | the tab each bottom button's handler sets: chats, status and calls for the first three, none exactly for the profile button, which has no handler |
| Navigation.ViewState.constructor | src/pages/Index.tsx:47-49 | initially the active tab is chats, the search query is empty and no chat is selected |
| Navigation.ViewState.SelectTab | src/pages/Index.tsx:104 | the tab strip sets the active tab and changes nothing else |
| Navigation.ViewState.PressBottomButton | src/pages/Index.tsx:234-247 | each of the first three bottom buttons sets the active tab to its own value and its icon becomes highlighted; the profile button changes nothing; the query and the selection never change |
| Navigation.ViewState.SetSearchQuery | src/pages/Index.tsx:128 | editing the search box sets the query and changes nothing else |
| Navigation.ViewState.ClickChat | src/pages/Index.tsx:142 | clicking a chat card selects that card's id, highlights it, and changes nothing else |
| Navigation.ViewState.ChatHighlighted | src/pages/Index.tsx:140 | a chat card is highlighted when `selectedChat` is its id; while no chat is selected, no card is |
| Navigation.ViewState.IconHighlighted | src/pages/Index.tsx:236-242 | a bottom icon is highlighted when `activeTab` is its button's tab; the profile icon never is |
| Navigation.AtMostOneChatHighlighted | src/pages/Index.tsx:140 | with unique chat ids, a highlighted card is the only highlighted one |
| Navigation.ExactlyOneIconHighlighted | src/pages/Index.tsx:236-245 | a tab icon is highlighted iff the active tab is its own value, the profile icon never is, and exactly one bottom icon is highlighted at any time |
| Navigation.StatusCardAt | src/pages/Index.tsx:175-183 | the "+" badge and the thick border appear iff the position is 0; the grey ring appears iff the position is not 0 and the status was viewed |
| Navigation.FirstStatusIsSelf | src/pages/Index.tsx:179-183 | the first status is always drawn as the user's own entry, whatever its viewed flag; an entry moved off position 0 loses the badge |

## Left out

- The JSX layout, CSS classes, icons and the UI-library wrappers (avatar, tabs, scroll area, input). They are presentation over a library that is not part of this model.
- Unicode case mapping. `toLowerCase` and `toUpperCase` are parameters, so no claim depends on how they map characters. UTF-16 indexing is not modelled either: `n[0]` takes a code unit and can split a surrogate pair, while the model takes a whole character.
- Initials.GetInitials: says nothing about the length of the upper-cased result, because upper-casing can change it (`'ß'` becomes `"SS"`). Length facts are stated before upper-casing, in `RawInitials`.
- The `activeTab` hook holds a string. The model uses a three-valued `Tab`, because every setter in the source passes one of `'chats'`, `'status'` or `'calls'`.
- `src/components/ChatWindow.tsx`: it only renders the selected chat and forwards callbacks. The message append is the prop `handleSendMessage`, whose body is not part of this model.
- `src/components/ProfilePage.tsx`: static markup and a one-line dark-mode toggle. The theme storage is not part of this model.
- The overlay flags for contacts, groups and profile. They appear only as setter props, and the state that owns them is not part of this model.
- The sample fixture arrays (`src/pages/Index.tsx:51-79`). Only a few literal names are used, in the initials examples.
- The other per-record display rules: the unread badge (`chat.unread > 0`, `src/pages/Index.tsx:161`; `group.unread > 0`, `src/components/ContactsGroupsPages.tsx:191`), the online dot (`src/pages/Index.tsx:150`, `src/components/ContactsGroupsPages.tsx:97`) and the call duration (`src/pages/Index.tsx:222`). Each is a display decision on one field of one record, with no state and nothing to relate it to.
- The call-list icon and colour choice (`src/pages/Index.tsx:213-217`). It is a display decision on a closed enum with no state.
- The tab panels being rendered outside their tabs root (`src/pages/Index.tsx:119` against `135`). This is a runtime concern of the UI library.
