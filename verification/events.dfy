/** The events page: a static catalogue and the conjunctive filter over it by
    category, free-text search and team type (app/events/page.tsx). */
module Events {
  import Strings

  datatype Status = Open | Closed

  /** One catalogue entry (the `EventProps` record of the event card). */
  datatype Event = Event(
    id: string,
    title: string,
    subtitle: string,
    category: string,
    image: string,
    date: string,
    entryFee: string,
    teamSize: string,
    venue: string,
    status: Status,
    isOnCampus: bool)

  /** The three filter controls of the page. */
  datatype Filters = Filters(activeCategory: string, searchQuery: string, activeType: string)

  const AllCategories := "All categories"
  const AllTypes := "All Types"
  const Solo := "Solo"
  const Group := "Group"
  const Individual := "Individual"

  const Categories: seq<string> := [
    AllCategories, "Acting and Drama", "Fine Arts", "Music and Dance",
    "Literature and Debate", "Special Events"
  ]

  const Types: seq<string> := [AllTypes, Solo, Group]

  /** The page's initial filter state. */
  const DefaultFilters := Filters(AllCategories, "", AllTypes)

  const WallRush := Event("4", "WALL RUSH", "Wall Painting Competition", "Fine Arts",
                          "/logo.svg", "11 Mar", "Free", "2-3", "H1 Wall", Open, true)

  const Catalogue: seq<Event> := [
    Event("1", "GANGSTA", "Solo Rap Competition", "Music and Dance",
          "/logo.svg", "10 Mar", "Free", "Individual", "AVH", Open, true),
    Event("2", "GOONJ", "A Solo Singing Competition", "Music and Dance",
          "/logo.svg", "10 Mar", "Free", "Individual", "Main Stage", Open, true),
    Event("3", "GROOVES", "A Group Dance Competition", "Music and Dance",
          "/logo.svg", "10 Mar", "Free", "3-18", "Main Stage", Open, true),
    WallRush,
    Event("5", "WITCOINS", "Quiz Competition", "Literature and Debate",
          "/logo.svg", "10 Mar", "Free", "2-2", "Room-50", Open, true),
    Event("6", "ABHIVYAKTI", "An Extempore Speaking Event", "Literature and Debate",
          "/logo.svg", "11 Mar", "Free", "Individual", "AVH", Open, true),
    Event("7", "BAYAN", "Open Mic Competition", "Acting and Drama",
          "/logo.svg", "10 Mar", "Free", "Individual", "AVH", Open, true),
    Event("8", "CHITRAKARI", "Sketching Competition", "Fine Arts",
          "/logo.svg", "10 Mar", "Free", "Individual", "Room No. 37", Open, true)
  ]

  // ---------------------------------------------------------------------------
  // The three predicates
  // ---------------------------------------------------------------------------

  predicate MatchesCategory(activeCategory: string, e: Event) {
    activeCategory == AllCategories || e.category == activeCategory
  }

  predicate MatchesSearch(searchQuery: string, e: Event) {
    Strings.Contains(Strings.ToLower(e.title), Strings.ToLower(searchQuery)) ||
    Strings.Contains(Strings.ToLower(e.subtitle), Strings.ToLower(searchQuery))
  }

  predicate MatchesType(activeType: string, e: Event) {
    if activeType == Solo then e.teamSize == Individual
    else if activeType == Group then e.teamSize != Individual
    else true
  }

  predicate Matches(f: Filters, e: Event) {
    MatchesCategory(f.activeCategory, e) && MatchesSearch(f.searchQuery, e) && MatchesType(f.activeType, e)
  }

  /** `b` can be obtained from `a` by deleting elements: the order is kept. */
  predicate IsSubsequence(b: seq<Event>, a: seq<Event>)
    decreases |a|
  {
    if b == [] then true
    else if a == [] then false
    else if b[0] == a[0] then IsSubsequence(b[1..], a[1..])
    else IsSubsequence(b, a[1..])
  }

  // ---------------------------------------------------------------------------
  // The filter
  // ---------------------------------------------------------------------------

  /** `filteredEvents`: the catalogue order is kept, every event that passes
      all three predicates is kept as often as it occurs, and nothing else. */
  function FilterEvents(events: seq<Event>, f: Filters): (r: seq<Event>)
    ensures IsSubsequence(r, events)
    ensures forall e :: multiset(r)[e] == if Matches(f, e) then multiset(events)[e] else 0
    ensures forall k :: 0 <= k < |r| ==> Matches(f, r[k])
    decreases |events|
  {
    if events == [] then []
    else
      var rest := FilterEvents(events[1..], f);
      assert events == [events[0]] + events[1..];
      if Matches(f, events[0]) then [events[0]] + rest else rest
  }

  /** An event is shown exactly when it is in the catalogue and passes the
      category, search and type predicates. */
  lemma FilterMembership(events: seq<Event>, f: Filters, e: Event)
    ensures e in FilterEvents(events, f) <==> e in events && Matches(f, e)
  {
    var r := FilterEvents(events, f);
    assert e in r <==> multiset(r)[e] > 0;
    assert e in events <==> multiset(events)[e] > 0;
  }

  /** Filtering depends only on which events pass: two filter settings that
      accept the same events give the same list. */
  lemma {:induction false} FilterCongruent(events: seq<Event>, f: Filters, g: Filters)
    requires forall k :: 0 <= k < |events| ==> (Matches(f, events[k]) <==> Matches(g, events[k]))
    ensures FilterEvents(events, f) == FilterEvents(events, g)
    decreases |events|
  {
    if events != [] {
      assert Matches(f, events[0]) <==> Matches(g, events[0]);
      FilterCongruent(events[1..], f, g);
    }
  }

  /** The page's initial filters show the whole catalogue, in order. */
  lemma {:induction false} DefaultShowsEverything(events: seq<Event>)
    ensures FilterEvents(events, DefaultFilters) == events
    decreases |events|
  {
    if events != [] {
      EmptyQueryMatches(events[0]);
      DefaultShowsEverything(events[1..]);
    }
  }

  /** The search ignores the case of the query: queries that agree after
      lower-casing (such as "wall", "WALL" and "Wall") select the same events. */
  lemma SearchIgnoresQueryCase(events: seq<Event>, f: Filters, query: string)
    requires Strings.ToLower(query) == Strings.ToLower(f.searchQuery)
    ensures FilterEvents(events, f.(searchQuery := query)) == FilterEvents(events, f)
  {
    FilterCongruent(events, f.(searchQuery := query), f);
  }

  /** Choosing a category narrows the "All categories" result to the events of
      that category: filtering by category afterwards gives the same list. */
  lemma {:induction false} CategoryNarrows(events: seq<Event>, f: Filters, category: string)
    requires f.activeCategory == AllCategories
    ensures FilterEvents(events, f.(activeCategory := category)) ==
            FilterEvents(FilterEvents(events, f), Filters(category, "", AllTypes))
    decreases |events|
  {
    if events != [] {
      var e := events[0];
      EmptyQueryMatches(e);
      CategoryNarrows(events[1..], f, category);
    }
  }

  /** The empty query matches every event. */
  lemma EmptyQueryMatches(e: Event)
    ensures MatchesSearch("", e)
  {
    Strings.EmptyIsContained(Strings.ToLower(e.title));
    assert Strings.ToLower("") == "";
  }

  /** Type "Solo" shows exactly the "All Types" events whose team size is
      "Individual", and type "Group" exactly the others. */
  lemma TypeSelects(events: seq<Event>, category: string, query: string, e: Event)
    ensures e in FilterEvents(events, Filters(category, query, Solo)) <==>
            e in FilterEvents(events, Filters(category, query, AllTypes)) && e.teamSize == Individual
    ensures e in FilterEvents(events, Filters(category, query, Group)) <==>
            e in FilterEvents(events, Filters(category, query, AllTypes)) && e.teamSize != Individual
  {
    FilterMembership(events, Filters(category, query, Solo), e);
    FilterMembership(events, Filters(category, query, Group), e);
    FilterMembership(events, Filters(category, query, AllTypes), e);
  }

  /** The options of the type menu: "All Types" accepts every event, "Solo"
      exactly the events of team size "Individual", "Group" exactly the
      others. */
  lemma TypeMenuSelects(e: Event)
    ensures forall k :: 0 <= k < |Types| ==>
              (MatchesType(Types[k], e) <==> k == 0 || (k == 1 <==> e.teamSize == Individual))
  {
  }

  /** A type value outside "Solo" and "Group" imposes no constraint. */
  lemma OtherTypesImposeNothing(activeType: string, e: Event)
    requires activeType != Solo && activeType != Group
    ensures MatchesType(activeType, e)
  {
  }

  /** Every catalogue event belongs to one of the category buttons other than
      "All categories", so some specific category shows it. */
  lemma CategoryButtonsCoverCatalogue(k: nat)
    requires k < |Catalogue|
    ensures Catalogue[k].category in Categories[1..]
  {
  }

  /** The Solo and Group results for the same category and query split the
      "All Types" result: no event is in both, and together they hold each
      event of the "All Types" result exactly as often. */
  lemma SoloGroupPartition(events: seq<Event>, category: string, query: string)
    ensures var solo := FilterEvents(events, Filters(category, query, Solo));
            var group := FilterEvents(events, Filters(category, query, Group));
            var all := FilterEvents(events, Filters(category, query, AllTypes));
            multiset(solo) + multiset(group) == multiset(all) &&
            forall e :: !(e in solo && e in group)
  {
    var solo := FilterEvents(events, Filters(category, query, Solo));
    var group := FilterEvents(events, Filters(category, query, Group));
    var all := FilterEvents(events, Filters(category, query, AllTypes));
    forall e
      ensures (multiset(solo) + multiset(group))[e] == multiset(all)[e]
    {
    }
  }

  /** WALL RUSH passes category "Fine Arts" and query "wall". */
  lemma WallRushMatches()
    ensures Matches(Filters("Fine Arts", "wall", AllTypes), WallRush)
  {
    assert Strings.ToLower("wall") == "wall";
    assert Strings.ToLower(WallRush.title)[..4] == "wall";
  }

  /** CHITRAKARI, the other "Fine Arts" event, has no "w" in its texts. */
  lemma ChitrakariRejected()
    ensures !Matches(Filters("Fine Arts", "wall", AllTypes), Catalogue[7])
  {
    var c := Catalogue[7];
    assert Strings.ToLower("wall") == "wall";
    Strings.NotContainedWithoutFirstChar(Strings.ToLower(c.title), "wall");
    Strings.NotContainedWithoutFirstChar(Strings.ToLower(c.subtitle), "wall");
  }

  /** When exactly one position passes the filters, the result is that one
      event alone. */
  lemma {:induction false} SingleMatch(events: seq<Event>, f: Filters, i: nat)
    requires i < |events| && Matches(f, events[i])
    requires forall k :: 0 <= k < |events| && k != i ==> !Matches(f, events[k])
    ensures FilterEvents(events, f) == [events[i]]
    decreases |events|
  {
    if i == 0 {
      NoneMatch(events[1..], f);
    } else {
      SingleMatch(events[1..], f, i - 1);
    }
  }

  /** When no position passes the filters, nothing is shown. */
  lemma {:induction false} NoneMatch(events: seq<Event>, f: Filters)
    requires forall k :: 0 <= k < |events| ==> !Matches(f, events[k])
    ensures FilterEvents(events, f) == []
    decreases |events|
  {
    if events != [] {
      NoneMatch(events[1..], f);
    }
  }

  /** Only WALL RUSH and CHITRAKARI are "Fine Arts" events. */
  lemma OtherCategories(k: nat)
    requires k < |Catalogue| && k != 3 && k != 7
    ensures Catalogue[k].category != "Fine Arts"
  {
  }

  /** Every catalogue event but WALL RUSH fails category "Fine Arts" with
      query "wall". */
  lemma OnlyWallRushMatches(k: nat)
    requires k < |Catalogue| && k != 3
    ensures !Matches(Filters("Fine Arts", "wall", AllTypes), Catalogue[k])
  {
    if k == 7 {
      ChitrakariRejected();
    } else {
      OtherCategories(k);
    }
  }

  /** Category "Fine Arts" with query "wall" shows exactly WALL RUSH. */
  lemma FineArtsWallExample()
    ensures FilterEvents(Catalogue, Filters("Fine Arts", "wall", AllTypes)) == [WallRush]
  {
    var f := Filters("Fine Arts", "wall", AllTypes);
    WallRushMatches();
    forall k | 0 <= k < |Catalogue| && k != 3
      ensures !Matches(f, Catalogue[k])
    {
      OnlyWallRushMatches(k);
    }
    SingleMatch(Catalogue, f, 3);
  }
}
