/** The contact and group search of src/components/ContactsGroupsPages.tsx:
    `Array.filter` over side-effect-free predicates, and the page state derived from it. */
module Search {
  import opened Strings

  datatype Contact = Contact(id: int, name: string, avatar: string, phone: string, online: bool)

  datatype Group = Group(
    id: int, name: string, avatar: string, description: string,
    members: int, lastMessage: string, time: string, unread: int)

  /** What a contacts or groups page shows: the header count, the cards in order,
      and whether the "not found" block is rendered. */
  datatype PageView<T> = PageView(headerCount: nat, shown: seq<T>, notFound: bool)

  /** `r` is obtained from `s` by deleting elements, keeping the rest in order. */
  predicate IsSubsequence<T(==,!new)>(r: seq<T>, s: seq<T>)
    decreases |s|
  {
    r == [] || (s != [] && ((r[0] == s[0] && IsSubsequence(r[1..], s[1..])) || IsSubsequence(r, s[1..])))
  }

  /** `s.filter(keep)`: the elements satisfying `keep`, each as often as in `s`. */
  function Filter<T(==,!new)>(s: seq<T>, keep: T -> bool): (r: seq<T>)
    ensures |r| <= |s|
    ensures forall x :: x in r <==> x in s && keep(x)
    ensures forall x :: multiset(r)[x] == if keep(x) then multiset(s)[x] else 0
  {
    if s == [] then []
    else
      assert s == [s[0]] + s[1..];
      if keep(s[0]) then [s[0]] + Filter(s[1..], keep) else Filter(s[1..], keep)
  }

  /** The filter keeps the relative order of what it keeps. */
  lemma {:induction false} FilterIsSubsequence<T(!new)>(s: seq<T>, keep: T -> bool)
    ensures IsSubsequence(Filter(s, keep), s)
  {
    if s != [] {
      FilterIsSubsequence(s[1..], keep);
      var r := Filter(s, keep);
      if !keep(s[0]) {
        assert r == Filter(s[1..], keep);
      } else {
        assert r[0] == s[0] && r[1..] == Filter(s[1..], keep);
      }
    }
  }

  /** When every element passes, the filter returns its input unchanged. */
  lemma {:induction false} FilterKeepsAll<T(!new)>(s: seq<T>, keep: T -> bool)
    requires forall x :: x in s ==> keep(x)
    ensures Filter(s, keep) == s
  {
    if s != [] {
      assert s[0] in s;
      FilterKeepsAll(s[1..], keep);
      assert s == [s[0]] + s[1..];
    }
  }

  /** Filtering a filtered list again with the same predicate changes nothing. */
  lemma FilterIdempotent<T(!new)>(s: seq<T>, keep: T -> bool)
    ensures Filter(Filter(s, keep), keep) == Filter(s, keep)
  {
    FilterKeepsAll(Filter(s, keep), keep);
  }

  /** The contact test of ContactsGroupsPages.tsx:52-53: the lower-cased name includes the
      lower-cased query, or the phone includes the query exactly as typed. */
  predicate ContactMatches(c: Contact, query: string, lower: string -> string)
    ensures query == [] ==> ContactMatches(c, query, lower)
    ensures Contains(c.phone, query) ==> ContactMatches(c, query, lower)
  {
    Contains(lower(c.name), lower(query)) || Contains(c.phone, query)
  }

  /** The group test of ContactsGroupsPages.tsx:137-138: the lower-cased name or the
      lower-cased description includes the lower-cased query. */
  predicate GroupMatches(g: Group, query: string, lower: string -> string)
    ensures lower(query) == [] ==> GroupMatches(g, query, lower)
  {
    Contains(lower(g.name), lower(query)) || Contains(lower(g.description), lower(query))
  }

  /** `filteredContacts`: the matching contacts, in their original order, duplicates included. */
  function FilteredContacts(contacts: seq<Contact>, query: string, lower: string -> string): (r: seq<Contact>)
    ensures IsSubsequence(r, contacts)
    ensures |r| <= |contacts|
    ensures forall c :: c in r <==> c in contacts && ContactMatches(c, query, lower)
    ensures forall c :: multiset(r)[c] == if ContactMatches(c, query, lower) then multiset(contacts)[c] else 0
  {
    FilterIsSubsequence(contacts, c => ContactMatches(c, query, lower));
    Filter(contacts, c => ContactMatches(c, query, lower))
  }

  /** `filteredGroups`: the matching groups, in their original order, duplicates included. */
  function FilteredGroups(groups: seq<Group>, query: string, lower: string -> string): (r: seq<Group>)
    ensures IsSubsequence(r, groups)
    ensures |r| <= |groups|
    ensures forall g :: g in r <==> g in groups && GroupMatches(g, query, lower)
    ensures forall g :: multiset(r)[g] == if GroupMatches(g, query, lower) then multiset(groups)[g] else 0
  {
    FilterIsSubsequence(groups, g => GroupMatches(g, query, lower));
    Filter(groups, g => GroupMatches(g, query, lower))
  }

  /** The empty query keeps every contact: every phone includes "", whatever `lower` does. */
  lemma EmptyQueryKeepsAllContacts(contacts: seq<Contact>, lower: string -> string)
    ensures FilteredContacts(contacts, "", lower) == contacts
  {
    FilterKeepsAll(contacts, c => ContactMatches(c, "", lower));
  }

  /** The empty query keeps every group, given that lower-casing "" yields "". */
  lemma EmptyQueryKeepsAllGroups(groups: seq<Group>, lower: string -> string)
    requires lower("") == ""
    ensures FilteredGroups(groups, "", lower) == groups
  {
    FilterKeepsAll(groups, g => GroupMatches(g, "", lower));
  }

  /** Searching the contacts already found for the same query finds them all again. */
  lemma ContactsFilterIdempotent(contacts: seq<Contact>, query: string, lower: string -> string)
    ensures FilteredContacts(FilteredContacts(contacts, query, lower), query, lower)
         == FilteredContacts(contacts, query, lower)
  {
    FilterIdempotent(contacts, c => ContactMatches(c, query, lower));
  }

  /** Searching the groups already found for the same query finds them all again. */
  lemma GroupsFilterIdempotent(groups: seq<Group>, query: string, lower: string -> string)
    ensures FilteredGroups(FilteredGroups(groups, query, lower), query, lower)
         == FilteredGroups(groups, query, lower)
  {
    FilterIdempotent(groups, g => GroupMatches(g, query, lower));
  }

  /** The contacts page: the header counts all contacts, the list shows the matches,
      and "not found" appears exactly when no contact matches. */
  function ContactsPage(contacts: seq<Contact>, query: string, lower: string -> string): (v: PageView<Contact>)
    ensures v.headerCount == |contacts|
    ensures v.shown == FilteredContacts(contacts, query, lower)
    ensures v.notFound <==> v.shown == []
    ensures v.notFound <==> forall c :: c in contacts ==> !ContactMatches(c, query, lower)
  {
    var shown := FilteredContacts(contacts, query, lower);
    PageView(|contacts|, shown, |shown| == 0)
  }

  /** The groups page: the header counts all groups, the list shows the matches,
      and "not found" appears exactly when no group matches. */
  function GroupsPage(groups: seq<Group>, query: string, lower: string -> string): (v: PageView<Group>)
    ensures v.headerCount == |groups|
    ensures v.shown == FilteredGroups(groups, query, lower)
    ensures v.notFound <==> v.shown == []
    ensures v.notFound <==> forall g :: g in groups ==> !GroupMatches(g, query, lower)
  {
    var shown := FilteredGroups(groups, query, lower);
    PageView(|groups|, shown, |shown| == 0)
  }
}
