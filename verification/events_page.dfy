/**
 The student event browser of `app/events/page.jsx`: the category list,
 the search-and-filter predicate, the result count and the card button.
 */
module EventsPage {
  import opened Optional
  import opened Text
  import opened Lists
  import opened MockData

  /** `events.map(e => e.category)`. */
  function CategoryColumn(events: seq<Event>): (cats: seq<string>)
    ensures |cats| == |events|
    ensures forall i :: 0 <= i < |events| ==> cats[i] == events[i].category
  {
    seq(|events|, i requires 0 <= i < |events| => events[i].category)
  }

  /** `["all", ...new Set(events.map(e => e.category))]`. */
  function Categories(events: seq<Event>): (r: seq<string>)
    ensures |r| >= 1 && r[0] == "all"
    ensures forall c :: c in r[1..] <==> exists i :: 0 <= i < |events| && events[i].category == c
    ensures NoDuplicates(r[1..])
    ensures forall i :: 1 <= i < |r| ==> r[i] in CategoryColumn(events)
    ensures forall i, j :: 1 <= i < j < |r| ==>
      FirstIndex(CategoryColumn(events), r[i]) < FirstIndex(CategoryColumn(events), r[j])
  {
    var cats := CategoryColumn(events);
    assert forall c :: c in cats <==> exists i :: 0 <= i < |events| && events[i].category == c by {
      forall c | c in cats ensures exists i :: 0 <= i < |events| && events[i].category == c {
        var i :| 0 <= i < |cats| && cats[i] == c;
      }
      forall c | exists i :: 0 <= i < |events| && events[i].category == c ensures c in cats {
        var i :| 0 <= i < |events| && events[i].category == c;
        assert cats[i] == c;
      }
    }
    DistinctInFirstOccurrenceOrder(cats);
    var r := ["all"] + Distinct(cats);
    assert forall i :: 1 <= i < |r| ==> r[i] == Distinct(cats)[i - 1];
    r
  }

  /** The search box: title or club contains the query, ignoring case. */
  predicate MatchesSearch(e: Event, query: string) {
    Contains(ToLower(e.title), ToLower(query)) || Contains(ToLower(e.club), ToLower(query))
  }

  /** The three conditions of the page's filter callback. */
  predicate Keeps(e: Event, query: string, category: string, status: string) {
    && MatchesSearch(e, query)
    && (category == "all" || e.category == category)
    && (status == "all" || e.status == status)
  }

  /** `filteredEvents`. */
  function FilteredEvents(events: seq<Event>, query: string, category: string, status: string): (r: seq<Event>)
    ensures |r| <= |events|
    ensures forall e :: e in r <==> e in events && Keeps(e, query, category, status)
  {
    Filter(events, e => Keeps(e, query, category, status))
  }

  /** The filtered list keeps the original order and every kept event as
      often as it appears. */
  lemma FilteredEventsInOrder(events: seq<Event>, query: string, category: string, status: string)
    ensures IsSubsequence(FilteredEvents(events, query, category, status), events)
    ensures forall e ::
      multiset(FilteredEvents(events, query, category, status))[e] == (if Keeps(e, query, category, status) then multiset(events)[e] else 0)
  {
    FilterIsSubsequence(events, e => Keeps(e, query, category, status));
    FilterKeepsMultiplicity(events, e => Keeps(e, query, category, status));
  }

  /** The page as first shown (empty query, both filters on "all") lists
      every event. */
  lemma NoFilterShowsAll(events: seq<Event>)
    ensures FilteredEvents(events, "", "all", "all") == events
  {
    forall i | 0 <= i < |events| ensures Keeps(events[i], "", "all", "all") {
      assert StartsWith(ToLower(events[i].title), ToLower(""));
    }
    FilterAllPass(events, e => Keeps(e, "", "all", "all"));
  }

  /** Narrowing a filter never adds events. */
  lemma StatusFilterNarrows(events: seq<Event>, query: string, category: string, status: string)
    ensures |FilteredEvents(events, query, category, status)| <= |FilteredEvents(events, query, category, "all")|
  {
    FilterMonotone(events, e => Keeps(e, query, category, status), e => Keeps(e, query, category, "all"));
  }

  /** The card button. */
  function RegisterLabel(status: string): (caption: string)
    ensures caption == "Join Waitlist" <==> status == "full"
    ensures caption == "Register" <==> status != "full"
  {
    if status == "full" then "Join Waitlist" else "Register"
  }

  /** "Showing N event(s)". */
  function CountLabel(n: nat): (caption: string)
    ensures StartsWith(caption, "Showing " + NatToString(n) + " event")
    ensures |caption| == 14 + |NatToString(n)| + (if n != 1 then 1 else 0)
    ensures caption[|caption| - 1] == 's' <==> n != 1
  {
    "Showing " + NatToString(n) + " event" + (if n != 1 then "s" else "")
  }

  /** The count reads back from the caption: `parseInt` of what follows
      "Showing " is N. */
  lemma CountLabelParsesBack(n: nat)
    ensures |CountLabel(n)| > 8 && ParseInt(CountLabel(n)[8..]) == Some(n)
  {
    var c := CountLabel(n);
    var digits := NatToString(n);
    var rest := " event" + (if n != 1 then "s" else "");
    assert c[8..] == digits + rest;
    ParseIntOfDigitsThen(digits, rest);
    NatToStringRoundTrip(n);
  }

  // ---------------------------------------------------------------------------
  // Against the fixture

  /** The fixture's category column has the shape `[t, a, s, t, c]`. */
  lemma DistinctOfFixtureShape(t: string, a: string, sp: string, ac: string)
    requires t != a && t != sp && t != ac && a != sp && a != ac && sp != ac
    ensures Distinct([t, a, sp, t, ac]) == [t, a, sp, ac]
  {
    assert NoDuplicates([t, a, sp]);
    DistinctOfDistinct([t, a, sp]);
    DistinctSnoc([t, a, sp], t);
    assert [t, a, sp] + [t] == [t, a, sp, t];
    DistinctSnoc([t, a, sp, t], ac);
    assert [t, a, sp, t] + [ac] == [t, a, sp, t, ac];
    assert [t, a, sp] + [ac] == [t, a, sp, ac];
  }

  lemma FixtureDistinctCategories()
    ensures Distinct(["Technology", "Arts", "Sports", "Technology", "Academic"]) ==
      ["Technology", "Arts", "Sports", "Academic"]
  {
    var t, a, sp, ac := "Technology", "Arts", "Sports", "Academic";
    assert |t| == 10 && |a| == 4 && |sp| == 6 && |ac| == 8;
    DistinctOfFixtureShape(t, a, sp, ac);
  }

  lemma FixtureCategoryColumn()
    ensures CategoryColumn(Events) == ["Technology", "Arts", "Sports", "Technology", "Academic"]
  {
  }

  /** The category menu offered over the fixture. */
  lemma FixtureCategories()
    ensures Categories(Events) == ["all", "Technology", "Arts", "Sports", "Academic"]
  {
    FixtureCategoryColumn();
    FixtureDistinctCategories();
  }

  /** Choosing "Full" shows only the workshop, event 4. */
  lemma FixtureFullFilter()
    ensures FilteredEvents(Events, "", "all", "full") == [Events[3]]
  {
    var p := e => Keeps(e, "", "all", "full");
    forall i | 0 <= i < |Events| ensures MatchesSearch(Events[i], "") {
      assert StartsWith(ToLower(Events[i].title), ToLower(""));
    }
    assert Filter(Events[4..], p) == [];
    assert Filter(Events[3..], p) == [Events[3]];
    assert Filter(Events[2..], p) == [Events[3]];
    assert Filter(Events[1..], p) == [Events[3]];
  }
}
