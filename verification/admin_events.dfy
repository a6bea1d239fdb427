/**
 The administrator's event table of `app/admin/events/page.jsx`: a search
 over title and club, and the delete/duplicate buttons, which only announce
 success and change nothing.
 */
module AdminEvents {
  import opened Lists
  import opened MockData
  import EventsPage

  /** `filteredEvents` of the admin table. */
  function Search(events: seq<Event>, query: string): (r: seq<Event>)
    ensures forall e :: e in r <==> e in events && EventsPage.MatchesSearch(e, query)
  {
    Filter(events, e => EventsPage.MatchesSearch(e, query))
  }

  /** The admin search is the student page's filter with both menus on "all". */
  lemma SearchIsUnfilteredBrowse(events: seq<Event>, query: string)
    ensures Search(events, query) == EventsPage.FilteredEvents(events, query, "all", "all")
  {
    FilterAgree(events, e => EventsPage.MatchesSearch(e, query), e => EventsPage.Keeps(e, query, "all", "all"));
  }


  /** The table keeps the fixture's order, and an empty search lists everything. */
  lemma SearchProperties(events: seq<Event>, query: string)
    ensures IsSubsequence(Search(events, query), events)
    ensures Search(events, "") == events
  {
    FilterIsSubsequence(events, e => EventsPage.MatchesSearch(e, query));
    SearchIsUnfilteredBrowse(events, "");
    EventsPage.NoFilterShowsAll(events);
  }

  /** The page's own state: the search text. The list it shows is always
      computed from the fixture. */
  datatype Page = Page(query: string)

  datatype Action = Type(query: string) | Delete(id: string) | Duplicate(id: string)

  function Apply(p: Page, a: Action): (r: Page)
    ensures a.Type? ==> r.query == a.query
    ensures !a.Type? ==> r == p
  {
    match a
    case Type(q) => Page(q)
    case Delete(_) => p
    case Duplicate(_) => p
  }

  function Shown(p: Page): seq<Event> {
    Search(Events, p.query)
  }

  /** Delete and duplicate leave the listed events exactly as they were. */
  lemma DeleteDuplicateChangeNothing(p: Page, id: string)
    ensures Shown(Apply(p, Delete(id))) == Shown(p)
    ensures Shown(Apply(p, Duplicate(id))) == Shown(p)
    ensures |Shown(Apply(p, Delete(id)))| == |Shown(p)|
  {
  }
}
