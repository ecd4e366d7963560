/** The event calendar digest of `moobot/events.py` (`update_calendar_message`):
    the upcoming events are read in start-date order, grouped by month, each
    rendered as one line, and the whole is kept as a single message of the
    bot's in the calendar channel, sent once and edited when it changes,
    with the two opt-in reactions on it. */
module Digest {
  import opened Wrappers
  import opened Exceptions
  import opened Seqs
  import opened Text
  import opened Dates
  import opened Models
  import opened Format
  import opened Platform
  import Db

  // The query.

  /** The digest's rows: not deleted, and ending today or later (a row with
      no end date fails the SQL comparison and is left out). */
  predicate Upcoming(today: Date, e: Event) {
    !e.deleted && e.endDate.Some? && DateLe(today, e.endDate.value)
  }

  /** `order_by(start_date)`: PostgreSQL puts a missing date last. */
  predicate StartsNoLater(a: Event, b: Event) {
    NullsLastLe(a.startDate, b.startDate)
  }

  predicate SortedByStart(s: seq<Event>) {
    forall i, j :: 0 <= i < j < |s| ==> StartsNoLater(s[i], s[j])
  }

  /** The column `order_by` sorts on. */
  function StartDate(e: Event): Option<Date> {
    e.startDate
  }

  /** The rows in start-date order: sorted, and a permutation of the input. */
  function SortByStart(s: seq<Event>): (r: seq<Event>)
    ensures SortedByStart(r)
    ensures multiset(r) == multiset(s)
  {
    SortOn(s, StartDate)
  }

  /** The query's result. */
  function UpcomingEvents(events: seq<Event>, today: Date): (r: seq<Event>)
    ensures SortedByStart(r)
    ensures multiset(r) == multiset(Filter(events, e => Upcoming(today, e)))
  {
    SortByStart(Filter(events, e => Upcoming(today, e)))
  }

  /** The query returns exactly the upcoming rows. */
  lemma UpcomingEventsExact(events: seq<Event>, today: Date)
    ensures forall e :: e in UpcomingEvents(events, today) <==> e in events && Upcoming(today, e)
  {
    var p := e => Upcoming(today, e);
    FilterSound(events, p);
    FilterAll(events, p);
    var r := UpcomingEvents(events, today);
    forall e ensures e in r <==> e in Filter(events, p) {
      assert e in r <==> e in multiset(r);
    }
  }

  // Grouping by month.

  /** The key `(start_date.month, start_date.year)`. */
  datatype MonthKey = MonthKey(month: int, year: int)

  /** One month of the digest: its key and its rows, in query order. */
  datatype Group = Group(key: MonthKey, events: seq<Event>)

  function KeyOf(e: Event): MonthKey
    requires e.startDate.Some?
  {
    MonthKey(e.startDate.value.month, e.startDate.value.year)
  }

  /** The rows of month `k`. */
  function InMonth(k: MonthKey): Event -> bool {
    (e: Event) => e.startDate.Some? && KeyOf(e) == k
  }

  /** The dict lookup `month_and_year in events_by_month_and_year`. */
  function FindGroup(groups: seq<Group>, k: MonthKey): (r: Option<nat>)
    ensures r.Some? ==> r.value < |groups| && groups[r.value].key == k
    ensures r.None? ==> forall i :: 0 <= i < |groups| ==> groups[i].key != k
  {
    FirstIndex(groups, (g: Group) => g.key == k)
  }

  /** One row added to its month's list, a new month going last. */
  function AddToGroups(groups: seq<Group>, e: Event): seq<Group>
    requires e.startDate.Some?
  {
    match FindGroup(groups, KeyOf(e))
    case None => groups + [Group(KeyOf(e), [e])]
    case Some(i) => groups[i := Group(KeyOf(e), groups[i].events + [e])]
  }

  /** The grouping loop over the rows: a row without a start date raises
      AttributeError when its turn comes. */
  function Grouped(events: seq<Event>): (r: Result<seq<Group>, Exception>)
    ensures r.Err? ==> r.error == AttributeError
    ensures r.Ok? <==> forall i :: 0 <= i < |events| ==> events[i].startDate.Some?
  {
    if events == [] then Ok([])
    else
      var groups :- Grouped(events[..|events| - 1]);
      var e := events[|events| - 1];
      if e.startDate.None? then Err(AttributeError) else Ok(AddToGroups(groups, e))
  }

  /** What the grouping holds: distinct months, each with exactly its own
      rows in their order, and a month for every row. */
  ghost predicate Partitions(groups: seq<Group>, events: seq<Event>) {
    && (forall i, j :: 0 <= i < j < |groups| ==> groups[i].key != groups[j].key)
    && (forall i :: 0 <= i < |groups| ==> groups[i].events == Filter(events, InMonth(groups[i].key)))
    && (forall i :: 0 <= i < |groups| ==> groups[i].events != [])
    && (forall e :: e in events ==> e.startDate.Some? && FindGroup(groups, KeyOf(e)).Some?)
  }

  /** Each month's list holds exactly that month's rows, in query order, and
      no row is left without its month. */
  lemma {:induction false} GroupedPartitions(events: seq<Event>)
    requires Grouped(events).Ok?
    ensures Partitions(Grouped(events).value, events)
  {
    if events != [] {
      var init, e := events[..|events| - 1], events[|events| - 1];
      assert events == init + [e];
      GroupedPartitions(init);
      AddPartitions(Grouped(init).value, init, e);
    }
  }

  /** Adding one row keeps the partition. */
  lemma AddPartitions(groups: seq<Group>, init: seq<Event>, e: Event)
    requires Partitions(groups, init) && e.startDate.Some?
    ensures Partitions(AddToGroups(groups, e), init + [e])
  {
    match FindGroup(groups, KeyOf(e))
    case Some(i) => AddToMonth(groups, init, e, i);
    case None => AddMonth(groups, init, e);
  }

  /** A row whose month is listed goes at the end of that month's list. */
  lemma AddToMonth(groups: seq<Group>, init: seq<Event>, e: Event, i: nat)
    requires Partitions(groups, init) && e.startDate.Some? && FindGroup(groups, KeyOf(e)) == Some(i)
    ensures Partitions(AddToGroups(groups, e), init + [e])
  {
    var k := KeyOf(e);
    var r := AddToGroups(groups, e);
    assert r == groups[i := Group(k, groups[i].events + [e])];
    AddToMonthKeys(groups, init, e, i);
    forall j | 0 <= j < |r|
      ensures r[j].events == Filter(init + [e], InMonth(r[j].key))
    {
      FilterAppend(init, e, InMonth(r[j].key));
      if j != i {
        assert r[j] == groups[j] && groups[j].key != k;
      }
    }
    forall x | x in init + [e] ensures x.startDate.Some? && FindGroup(r, KeyOf(x)).Some? {
      if x == e {
        FindGroupSome(r, k, i);
      } else {
        assert x in init;
        var n := FindGroup(groups, KeyOf(x)).value;
        assert r[n].key == groups[n].key;
        FindGroupSome(r, KeyOf(x), n);
      }
    }
  }

  /** Adding to a listed month keeps the months distinct and nonempty. */
  lemma AddToMonthKeys(groups: seq<Group>, init: seq<Event>, e: Event, i: nat)
    requires Partitions(groups, init) && e.startDate.Some? && FindGroup(groups, KeyOf(e)) == Some(i)
    ensures var r := groups[i := Group(KeyOf(e), groups[i].events + [e])];
      && (forall a, b :: 0 <= a < b < |r| ==> r[a].key != r[b].key)
      && (forall a :: 0 <= a < |r| ==> r[a].events != [])
  {
  }

  lemma FindGroupSome(groups: seq<Group>, k: MonthKey, n: nat)
    requires n < |groups| && groups[n].key == k
    ensures FindGroup(groups, k).Some?
  {
  }

  /** A row of a month not yet listed opens that month, last. */
  lemma AddMonth(groups: seq<Group>, init: seq<Event>, e: Event)
    requires Partitions(groups, init) && e.startDate.Some? && FindGroup(groups, KeyOf(e)).None?
    ensures Partitions(AddToGroups(groups, e), init + [e])
  {
    var r := AddToGroups(groups, e);
    assert r == groups + [Group(KeyOf(e), [e])];
    AddMonthKeys(groups, init, e);
    AddMonthLists(groups, init, e);
    AddMonthCovers(groups, init, e);
  }

  /** After a new month, the months are still distinct and none is empty. */
  lemma AddMonthKeys(groups: seq<Group>, init: seq<Event>, e: Event)
    requires Partitions(groups, init) && e.startDate.Some? && FindGroup(groups, KeyOf(e)).None?
    ensures var r := groups + [Group(KeyOf(e), [e])];
      && (forall i, j :: 0 <= i < j < |r| ==> r[i].key != r[j].key)
      && (forall i :: 0 <= i < |r| ==> r[i].events != [])
  {
  }

  /** After a new month, every month still lists exactly its rows. */
  lemma AddMonthLists(groups: seq<Group>, init: seq<Event>, e: Event)
    requires Partitions(groups, init) && e.startDate.Some? && FindGroup(groups, KeyOf(e)).None?
    ensures var r := groups + [Group(KeyOf(e), [e])];
      forall j :: 0 <= j < |r| ==> r[j].events == Filter(init + [e], InMonth(r[j].key))
  {
    var k := KeyOf(e);
    var r := groups + [Group(k, [e])];
    forall j | 0 <= j < |r| ensures r[j].events == Filter(init + [e], InMonth(r[j].key)) {
      FilterAppend(init, e, InMonth(r[j].key));
      if j < |groups| {
        assert r[j] == groups[j] && groups[j].key != k;
      } else {
        forall x | x in init ensures !InMonth(k)(x) {
          var n := FindGroup(groups, KeyOf(x)).value;
          assert groups[n].key != k;
        }
        FilterNone(init, InMonth(k));
      }
    }
  }

  /** After a new month, every row still has its month. */
  lemma AddMonthCovers(groups: seq<Group>, init: seq<Event>, e: Event)
    requires Partitions(groups, init) && e.startDate.Some? && FindGroup(groups, KeyOf(e)).None?
    ensures var r := groups + [Group(KeyOf(e), [e])];
      forall x :: x in init + [e] ==> x.startDate.Some? && FindGroup(r, KeyOf(x)).Some?
  {
    var r := groups + [Group(KeyOf(e), [e])];
    forall x | x in init + [e] ensures x.startDate.Some? && FindGroup(r, KeyOf(x)).Some? {
      if x == e {
        FindGroupSome(r, KeyOf(e), |groups|);
      } else {
        assert x in init;
        var n := FindGroup(groups, KeyOf(x)).value;
        assert r[n].key == groups[n].key;
        FindGroupSome(r, KeyOf(x), n);
      }
    }
  }

  /** `(year, month)` order. */
  predicate KeyBefore(a: MonthKey, b: MonthKey) {
    a.year < b.year || (a.year == b.year && a.month < b.month)
  }

  /** Since the rows come in start-date order, the months come out in
      calendar order, and the last month is the last row's. */
  lemma {:induction false} MonthsInCalendarOrder(events: seq<Event>)
    requires SortedByStart(events) && Grouped(events).Ok?
    ensures var groups := Grouped(events).value;
      && (forall i, j :: 0 <= i < j < |groups| ==> KeyBefore(groups[i].key, groups[j].key))
      && (events != [] ==> groups != [] && groups[|groups| - 1].key == KeyOf(events[|events| - 1]))
  {
    if events != [] {
      var init, e := events[..|events| - 1], events[|events| - 1];
      MonthsInCalendarOrder(init);
      if init != [] {
        assert StartsNoLater(init[|init| - 1], e);
      }
      AddInOrder(Grouped(init).value, e);
    }
  }

  /** A row no earlier than the last month's goes into that month or a new
      last one. */
  lemma AddInOrder(groups: seq<Group>, e: Event)
    requires e.startDate.Some?
    requires forall i, j :: 0 <= i < j < |groups| ==> KeyBefore(groups[i].key, groups[j].key)
    requires groups != [] ==> groups[|groups| - 1].key == KeyOf(e) || KeyBefore(groups[|groups| - 1].key, KeyOf(e))
    ensures var r := AddToGroups(groups, e);
      && (forall i, j :: 0 <= i < j < |r| ==> KeyBefore(r[i].key, r[j].key))
      && r != [] && r[|r| - 1].key == KeyOf(e)
  {
    var k := KeyOf(e);
    match FindGroup(groups, k)
    case None =>
      if groups != [] {
        assert KeyBefore(groups[|groups| - 1].key, k);
      }
    case Some(n) =>
      assert n == |groups| - 1;
  }


  /** The grouping loop as the source writes it. */
  method GroupByMonth(events: seq<Event>) returns (r: Result<seq<Group>, Exception>)
    ensures r == Grouped(events)
  {
    var groups: seq<Group> := [];
    for i := 0 to |events|
      invariant Grouped(events[..i]) == Ok(groups)
    {
      assert events[..i + 1][..i] == events[..i];
      var e := events[i];
      if e.startDate.None? {
        ErrorPersists(events, i + 1);
        return Err(AttributeError);
      }
      var k := KeyOf(e);
      var found := FindGroup(groups, k);
      if found.None? {
        groups := groups + [Group(k, [e])];
      } else {
        groups := groups[found.value := Group(k, groups[found.value].events + [e])];
      }
    }
    assert events[..|events|] == events;
    r := Ok(groups);
  }

  /** An exception in the first `n` rows is the grouping's exception. */
  lemma {:induction false} ErrorPersists(events: seq<Event>, n: nat)
    requires n <= |events| && Grouped(events[..n]).Err?
    ensures Grouped(events) == Grouped(events[..n])
    decreases |events| - n
  {
    if n < |events| {
      assert events[..n + 1][..n] == events[..n];
      ErrorPersists(events, n + 1);
    }
  }

  // The text.

  /** One row's line on `today`. */
  function LineOf(today: Date): Event --> Result<string, Exception> {
    (e: Event) requires WellTyped(e) => FormatSingleEventForCalendar(e, today)
  }

  /** `[format_single_event_for_calendar(e) for e in events]`. */
  function EventLines(events: seq<Event>, today: Date): (r: Result<seq<string>, Exception>)
    requires AllWellTyped(events)
    ensures r.Ok? ==> |r.value| == |events|
  {
    MapAll(events, LineOf(today))
  }

  /** Line `k` is row `k`'s rendering. */
  lemma EventLineAt(events: seq<Event>, today: Date, k: nat)
    requires AllWellTyped(events) && EventLines(events, today).Ok? && k < |events|
    ensures FormatSingleEventForCalendar(events[k], today) == Ok(EventLines(events, today).value[k])
  {
    MapAllAt(events, LineOf(today), k);
  }

  /** A month's heading, `**<Month> <year>:**` and a newline. */
  function MonthHeading(k: MonthKey): string
    requires 1 <= k.month <= 12 && k.year >= 0
  {
    "**" + MonthName(k.month) + " " + NatToString(k.year) + ":**\n"
  }

  predicate ValidKey(k: MonthKey) {
    1 <= k.month <= 12 && k.year >= 1
  }

  predicate AllWellTyped(events: seq<Event>) {
    forall i :: 0 <= i < |events| ==> WellTyped(events[i])
  }

  /** Each month's heading followed by its lines joined by newlines. */
  function MonthSections(groups: seq<Group>, today: Date): (r: Result<seq<string>, Exception>)
    requires WellFormedGroups(groups)
    ensures r.Ok? ==> |r.value| == |groups|
  {
    if groups == [] then Ok([])
    else
      var init :- MonthSections(groups[..|groups| - 1], today);
      var g := groups[|groups| - 1];
      var lines :- EventLines(g.events, today);
      Ok(init + [MonthHeading(g.key) + Join(lines, "\n")])
  }

  predicate WellFormedGroups(groups: seq<Group>) {
    forall i :: 0 <= i < |groups| ==> ValidKey(groups[i].key) && AllWellTyped(groups[i].events)
  }

  /** Section `i` is month `i`'s heading and lines. */
  lemma {:induction false} MonthSectionAt(groups: seq<Group>, today: Date, i: nat)
    requires WellFormedGroups(groups) && MonthSections(groups, today).Ok? && i < |groups|
    ensures EventLines(groups[i].events, today).Ok?
    ensures MonthSections(groups, today).value[i]
            == MonthHeading(groups[i].key) + Join(EventLines(groups[i].events, today).value, "\n")
  {
    var init := groups[..|groups| - 1];
    if i < |init| {
      MonthSectionAt(init, today, i);
      assert init[i] == groups[i];
    }
  }

  const NoEvents: string := "No upcoming events!"

  /** The months joined by blank lines, or the placeholder when there are none. */
  function MonthsText(sections: seq<string>): string {
    var joined := Join(sections, "\n\n");
    if joined == "" then NoEvents else joined
  }

  /** The placeholder shows exactly when no month has a section. */
  lemma NoEventsIffNoMonths(groups: seq<Group>, today: Date)
    requires WellFormedGroups(groups)
    requires MonthSections(groups, today).Ok?
    ensures MonthsText(MonthSections(groups, today).value) == NoEvents <==> groups == []
  {
    var sections := MonthSections(groups, today).value;
    if groups != [] {
      MonthSectionAt(groups, today, 0);
      var first := sections[0];
      assert first[0] == '*';
      JoinStartsWithFirst(sections, "\n\n");
      var joined := Join(sections, "\n\n");
      assert joined[..|first|] == first;
      assert joined[0] == '*';
      assert NoEvents[0] == 'N';
    }
  }

  /** The fixed wording of the message, each piece up to where the caller's
      mention or emoji goes. */
  const IntroWords: string := "Welcome to the Moobloom Event calendar! A full list of upcoming events is available"
    + " below.\nIn order to reduce notification spam, each event has a private channel for"
    + " discussion and planning. To gain access, RSVP in "
  const AllEventsWords: string := "To automatically gain access to all new event channels (and accept the consequences of"
    + " receiving a ton of notifications), react with "
  const SyncWords: string := "To enable automatic syncing of events to Google Calendar, react with "
  const CalendarTitle: string := "\n\n**Moobloom Event Calendar:**\n\n"

  /** The intro, with the announcement channel's mention. */
  function IntroSection(mention: string): string {
    IntroWords + mention + "."
  }

  function AllEventsSection(allEventsEmoji: string): string {
    AllEventsWords + allEventsEmoji + "."
  }

  function SyncSection(syncEmoji: string): string {
    SyncWords + syncEmoji + "."
  }

  /** The layout of the message around its sections. */
  function Layout(intro: string, months: string, allEvents: string, sync: string): string {
    intro + CalendarTitle + months + "\n\n*" + allEvents + "*\n\n*" + sync + "*"
  }

  /** The month sections of the query's rows. */
  function DigestSections(upcoming: seq<Event>, today: Date): Result<seq<string>, Exception>
    requires AllWellTyped(upcoming)
  {
    var groups :- Grouped(upcoming);
    GroupedPartitions(upcoming);
    GroupsWellFormed(groups, upcoming);
    MonthSections(groups, today)
  }

  /** The digest's text for the event table, or the exception that stops it. */
  function CalendarContent(events: seq<Event>, today: Date, mention: string, allEventsEmoji: string,
                           syncEmoji: string): Result<string, Exception>
    requires AllWellTyped(events)
  {
    UpcomingWellTyped(events, today);
    var sections :- DigestSections(UpcomingEvents(events, today), today);
    Ok(Layout(IntroSection(mention), MonthsText(sections), AllEventsSection(allEventsEmoji),
              SyncSection(syncEmoji)))
  }

  /** The digest is built exactly when the grouping raises nothing, and
      otherwise raises AttributeError: once every row has a start date no
      line fails to render. */
  lemma ContentNeedsGrouping(events: seq<Event>, today: Date, mention: string, allEventsEmoji: string,
                             syncEmoji: string)
    requires AllWellTyped(events)
    ensures CalendarContent(events, today, mention, allEventsEmoji, syncEmoji).Ok?
            <==> Grouped(UpcomingEvents(events, today)).Ok?
    ensures CalendarContent(events, today, mention, allEventsEmoji, syncEmoji).Err? ==>
      CalendarContent(events, today, mention, allEventsEmoji, syncEmoji).error == AttributeError
  {
    var upcoming := UpcomingEvents(events, today);
    UpcomingWellTyped(events, today);
    if Grouped(upcoming).Ok? {
      GroupedPartitions(upcoming);
      UpcomingEventsExact(events, today);
      LinesNeverFail(upcoming, today);
    }
  }

  lemma UpcomingWellTyped(events: seq<Event>, today: Date)
    requires AllWellTyped(events)
    ensures AllWellTyped(UpcomingEvents(events, today))
  {
    UpcomingEventsExact(events, today);
    var r := UpcomingEvents(events, today);
    forall i | 0 <= i < |r| ensures WellTyped(r[i]) {
      assert r[i] in events;
    }
  }

  /** Every month holds well-typed rows under a real month key. */
  lemma GroupsWellFormed(groups: seq<Group>, events: seq<Event>)
    requires AllWellTyped(events) && Partitions(groups, events)
    ensures WellFormedGroups(groups)
  {
    forall i | 0 <= i < |groups|
      ensures ValidKey(groups[i].key) && AllWellTyped(groups[i].events)
    {
      FilterSound(events, InMonth(groups[i].key));
      var first := groups[i].events[0];
      assert first in groups[i].events;
      forall k | 0 <= k < |groups[i].events| ensures WellTyped(groups[i].events[k]) {
        assert groups[i].events[k] in events;
      }
    }
  }

  /** Once every upcoming row has a start date, no line fails: a row with an
      end date and a start date always has a duration and a marker. */
  lemma LinesNeverFail(upcoming: seq<Event>, today: Date)
    requires Grouped(upcoming).Ok? && AllWellTyped(upcoming)
    requires forall e :: e in upcoming ==> e.endDate.Some?
    requires Partitions(Grouped(upcoming).value, upcoming)
    ensures WellFormedGroups(Grouped(upcoming).value)
    ensures MonthSections(Grouped(upcoming).value, today).Ok?
  {
    var groups := Grouped(upcoming).value;
    GroupsWellFormed(groups, upcoming);
    forall i | 0 <= i < |groups| ensures EventLines(groups[i].events, today).Ok? {
      FilterSound(upcoming, InMonth(groups[i].key));
      LinesOk(groups[i].events, today);
    }
    SectionsOk(groups, today);
  }

  lemma LinesOk(events: seq<Event>, today: Date)
    requires AllWellTyped(events)
    requires forall e :: e in events ==> e.startDate.Some? && e.endDate.Some?
    ensures EventLines(events, today).Ok?
  {
    forall i | 0 <= i < |events| ensures LineOf(today)(events[i]).Ok? {
      LineOk(events[i], today);
    }
    MapAllOk(events, LineOf(today));
  }

  /** A row with both dates always renders. */
  lemma LineOk(e: Event, today: Date)
    requires WellTyped(e) && e.startDate.Some? && e.endDate.Some?
    ensures FormatSingleEventForCalendar(e, today).Ok?
  {
    assert FormatEventDurationForCalendar(e.startDate, e.startTime, e.endDate, e.endTime).Ok?;
    assert CalendarMarker(e, today).Ok?;
  }

  lemma {:induction false} SectionsOk(groups: seq<Group>, today: Date)
    requires WellFormedGroups(groups)
    requires forall i :: 0 <= i < |groups| ==> EventLines(groups[i].events, today).Ok?
    ensures MonthSections(groups, today).Ok?
  {
    if groups != [] {
      SectionsOk(groups[..|groups| - 1], today);
    }
  }

  /** The layout shows the month sections whole. */
  lemma LayoutShowsMonths(intro: string, months: string, allEvents: string, sync: string)
    ensures Contains(Layout(intro, months, allEvents, sync), months)
  {
    var head := intro + CalendarTitle;
    var tail := "\n\n*" + allEvents + "*\n\n*" + sync + "*";
    ContainsMiddle(head, months, tail);
    assert Layout(intro, months, allEvents, sync) == head + months + tail;
  }

  /** Section `n` shows the line of its month's row `k`. */
  lemma SectionShowsLine(groups: seq<Group>, today: Date, n: nat, k: nat)
    requires WellFormedGroups(groups) && MonthSections(groups, today).Ok? && n < |groups|
    requires k < |groups[n].events|
    ensures FormatSingleEventForCalendar(groups[n].events[k], today).Ok?
    ensures Contains(MonthSections(groups, today).value[n],
                     FormatSingleEventForCalendar(groups[n].events[k], today).value)
    ensures MonthSections(groups, today).value[n] != []
  {
    MonthSectionAt(groups, today, n);
    var lines := EventLines(groups[n].events, today).value;
    EventLineAt(groups[n].events, today, k);
    var body := Join(lines, "\n");
    JoinContains(lines, "\n", k);
    ContainsMiddle(MonthHeading(groups[n].key), body, "");
    assert MonthHeading(groups[n].key) + body + "" == MonthSections(groups, today).value[n];
    ContainsTrans(MonthSections(groups, today).value[n], body, lines[k]);
  }

  /** Where an upcoming row sits in the grouping. */
  lemma RowInItsMonth(upcoming: seq<Event>, e: Event) returns (n: nat, k: nat)
    requires Grouped(upcoming).Ok? && e in upcoming
    ensures n < |Grouped(upcoming).value| && k < |Grouped(upcoming).value[n].events|
    ensures Grouped(upcoming).value[n].events[k] == e
  {
    var groups := Grouped(upcoming).value;
    GroupedPartitions(upcoming);
    n := FindGroup(groups, KeyOf(e)).value;
    FilterAll(upcoming, InMonth(groups[n].key));
    k :| 0 <= k < |groups[n].events| && groups[n].events[k] == e;
  }

  /** The month text shows every section. */
  lemma MonthsTextShows(sections: seq<string>, n: nat)
    requires n < |sections| && sections[n] != []
    ensures Contains(MonthsText(sections), sections[n])
  {
    JoinContains(sections, "\n\n", n);
    ContainsLength(Join(sections, "\n\n"), sections[n]);
  }

  /** The digest's text is the layout around the month text. */
  lemma ContentIsLayout(events: seq<Event>, today: Date, mention: string, allEventsEmoji: string, syncEmoji: string)
    requires AllWellTyped(events) && CalendarContent(events, today, mention, allEventsEmoji, syncEmoji).Ok?
    requires AllWellTyped(UpcomingEvents(events, today))
    ensures && DigestSections(UpcomingEvents(events, today), today).Ok?
      && CalendarContent(events, today, mention, allEventsEmoji, syncEmoji).value
         == Layout(IntroSection(mention), MonthsText(DigestSections(UpcomingEvents(events, today), today).value),
                   AllEventsSection(allEventsEmoji), SyncSection(syncEmoji))
  {
  }

  /** The sections of a grouping that raised nothing. */
  lemma DigestSectionsAre(upcoming: seq<Event>, today: Date)
    requires AllWellTyped(upcoming) && Grouped(upcoming).Ok? && WellFormedGroups(Grouped(upcoming).value)
    ensures DigestSections(upcoming, today) == MonthSections(Grouped(upcoming).value, today)
  {
  }

  /** Every upcoming row is listed: its line appears in the digest. */
  lemma EveryUpcomingEventListed(events: seq<Event>, today: Date, mention: string, allEventsEmoji: string,
                                 syncEmoji: string, e: Event)
    requires AllWellTyped(events) && e in events && Upcoming(today, e)
    requires CalendarContent(events, today, mention, allEventsEmoji, syncEmoji).Ok?
    ensures FormatSingleEventForCalendar(e, today).Ok?
    ensures Contains(CalendarContent(events, today, mention, allEventsEmoji, syncEmoji).value,
                     FormatSingleEventForCalendar(e, today).value)
  {
    var upcoming := UpcomingEvents(events, today);
    UpcomingEventsExact(events, today);
    UpcomingWellTyped(events, today);
    var groups := Grouped(upcoming).value;
    GroupedPartitions(upcoming);
    LinesNeverFail(upcoming, today);
    var sections := MonthSections(groups, today).value;
    var n, k := RowInItsMonth(upcoming, e);
    SectionShowsLine(groups, today, n, k);
    var line := FormatSingleEventForCalendar(e, today).value;
    MonthsTextShows(sections, n);
    var months := MonthsText(sections);
    ContainsTrans(months, sections[n], line);
    var content := Layout(IntroSection(mention), months, AllEventsSection(allEventsEmoji), SyncSection(syncEmoji));
    DigestSectionsAre(upcoming, today);
    ContentIsLayout(events, today, mention, allEventsEmoji, syncEmoji);
    LayoutShowsMonths(IntroSection(mention), months, AllEventsSection(allEventsEmoji), SyncSection(syncEmoji));
    ContainsTrans(content, months, line);
  }

  // The message.

  /** `channel.history()` returns the 100 most recent messages, newest first. */
  const HistoryLimit: nat := 100

  predicate ByBot(botId: UserId, m: Message) {
    m.authorId == botId
  }

  /** `get_calendar_message`: the bot's most recent message in the history
      it reads, if any. */
  function CalendarMessage(history: seq<Message>, botId: UserId): (r: Option<Message>)
    ensures r.Some? ==>
      exists i :: 0 <= i < |Take(history, HistoryLimit)| && history[i] == r.value
        && ByBot(botId, r.value) && forall j :: 0 <= j < i ==> !ByBot(botId, history[j])
    ensures r.None? ==> forall i :: 0 <= i < |Take(history, HistoryLimit)| ==> !ByBot(botId, history[i])
  {
    var recent := Take(history, HistoryLimit);
    match FirstIndex(recent, (m: Message) => ByBot(botId, m))
    case None => None
    case Some(i) => Some(recent[i])
  }

  /** `get_calendar_message` as the source writes it: the history read until
      the first message of the bot's. */
  method FindCalendarMessage(history: seq<Message>, botId: UserId) returns (m: Option<Message>)
    ensures m == CalendarMessage(history, botId)
  {
    var recent := Take(history, HistoryLimit);
    m := None;
    var i := 0;
    while i < |recent|
      invariant i <= |recent|
      invariant forall j :: 0 <= j < i ==> !ByBot(botId, recent[j])
    {
      if ByBot(botId, recent[i]) {
        m := Some(recent[i]);
        assert FirstIndex(recent, (m: Message) => ByBot(botId, m)) == Some(i);
        return;
      }
      i := i + 1;
    }
  }

  /** `add_reaction_if_missing`: the emoji is added unless the bot already
      reacted with it. */
  function ReactionIfMissing(messageId: MessageId, reactions: seq<Reaction>, emoji: string): (r: seq<Effect>)
    ensures r == [] <==> Reaction(emoji, true) in reactions
    ensures r != [] ==> r == [AddReaction(messageId, emoji)]
  {
    if Reaction(emoji, true) in reactions then [] else [AddReaction(messageId, emoji)]
  }

  method AddReactionIfMissing(c: Client, messageId: MessageId, reactions: seq<Reaction>, emoji: string)
    modifies c
    ensures c.log == old(c.log) + ReactionIfMissing(messageId, reactions, emoji)
    ensures c.nextId == old(c.nextId)
  {
    if Reaction(emoji, true) !in reactions {
      c.Record(AddReaction(messageId, emoji));
    }
  }

  /** What `update_calendar_message` does to the message, given the
      current one (if any) and the digest's text: a new message is sent
      with the sync reaction, a stale one is edited, and both opt-in
      reactions are then added where the message read back lacks them. */
  function CalendarEffects(current: Option<Message>, content: string, allEventsEmoji: string, syncEmoji: string,
                           newId: MessageId): (r: seq<Effect>)
    ensures current.None? ==>
      && |r| == 4 && r[0] == SendCalendar(newId, content)
      && forall k :: 1 <= k < 4 ==> r[k].AddReaction? && r[k].messageId == newId
    ensures current.Some? ==>
      && (forall eff :: eff in r ==> (eff.EditCalendar? || eff.AddReaction?) && eff.messageId == current.value.id)
      && (EditCalendar(current.value.id, content) in r <==> content != current.value.content)
    ensures forall eff :: eff in r && eff.AddReaction? ==> eff.emoji == allEventsEmoji || eff.emoji == syncEmoji
  {
    match current
    case None =>
      [SendCalendar(newId, content), AddReaction(newId, syncEmoji)]
      + ReactionIfMissing(newId, [], allEventsEmoji) + ReactionIfMissing(newId, [], syncEmoji)
    case Some(m) =>
      (if content != m.content then [EditCalendar(m.id, content)] else [])
      + ReactionIfMissing(m.id, m.reactions, allEventsEmoji) + ReactionIfMissing(m.id, m.reactions, syncEmoji)
  }

  /** `update_calendar_message`: both channels are looked up first (a
      missing one raises ValueError), then the digest is built, then the
      two custom emojis are looked up by name (`emojisFound` says whether
      the guild has both; the `next` over a generator with no match raises
      StopIteration, which escapes the coroutine as RuntimeError), then the
      message is brought up to date. */
  function CalendarUpdate(events: seq<Event>, today: Date, calendarOk: bool, announceOk: bool, emojisFound: bool,
                          mention: string, allEventsEmoji: string, syncEmoji: string, history: seq<Message>,
                          botId: UserId, newId: MessageId): (r: Result<seq<Effect>, Exception>)
    requires AllWellTyped(events)
    ensures !calendarOk || !announceOk ==> r == Err(ValueError)
    ensures r.Ok? ==> emojisFound
  {
    if !calendarOk || !announceOk then Err(ValueError)
    else
      var content :- CalendarContent(events, today, mention, allEventsEmoji, syncEmoji);
      if !emojisFound then Err(RuntimeError)
      else Ok(CalendarEffects(CalendarMessage(history, botId), content, allEventsEmoji, syncEmoji, newId))
  }

  /** The message part of `update_calendar_message`. */
  method PublishCalendar(c: Client, content: string, allEventsEmoji: string, syncEmoji: string,
                         history: seq<Message>)
    modifies c
    ensures c.log == old(c.log)
      + CalendarEffects(CalendarMessage(history, c.botId), content, allEventsEmoji, syncEmoji, old(c.nextId))
    ensures c.nextId == old(c.nextId) + if CalendarMessage(history, c.botId).None? then 1 else 0
  {
    ghost var log0 := c.log;
    var current := FindCalendarMessage(history, c.botId);
    if current.None? {
      var id := c.NewId();
      c.Record(SendCalendar(id, content));
      c.Record(AddReaction(id, syncEmoji));
      ghost var sent := [SendCalendar(id, content), AddReaction(id, syncEmoji)];
      assert c.log == log0 + sent;
      AddReactionIfMissing(c, id, [], allEventsEmoji);
      AppendAssoc(log0, sent, ReactionIfMissing(id, [], allEventsEmoji));
      AddReactionIfMissing(c, id, [], syncEmoji);
      AppendAssoc(log0, sent + ReactionIfMissing(id, [], allEventsEmoji), ReactionIfMissing(id, [], syncEmoji));
    } else {
      var m := current.value;
      ghost var edit: seq<Effect> := if content != m.content then [EditCalendar(m.id, content)] else [];
      if content != m.content {
        c.Record(EditCalendar(m.id, content));
      }
      assert c.log == log0 + edit;
      AddReactionIfMissing(c, m.id, m.reactions, allEventsEmoji);
      AppendAssoc(log0, edit, ReactionIfMissing(m.id, m.reactions, allEventsEmoji));
      AddReactionIfMissing(c, m.id, m.reactions, syncEmoji);
      AppendAssoc(log0, edit + ReactionIfMissing(m.id, m.reactions, allEventsEmoji),
                  ReactionIfMissing(m.id, m.reactions, syncEmoji));
    }
  }

  /** The four ways `update_calendar_message` ends. */
  lemma CalendarUpdateCases(events: seq<Event>, today: Date, calendarOk: bool, announceOk: bool, emojisFound: bool,
                            mention: string, allEventsEmoji: string, syncEmoji: string, history: seq<Message>,
                            botId: UserId, newId: MessageId)
    requires AllWellTyped(events)
    ensures var made := CalendarUpdate(events, today, calendarOk, announceOk, emojisFound, mention, allEventsEmoji,
                                       syncEmoji, history, botId, newId);
      if !calendarOk || !announceOk then made == Err(ValueError)
      else if Grouped(UpcomingEvents(events, today)).Err? then made == Err(AttributeError)
      else
        && CalendarContent(events, today, mention, allEventsEmoji, syncEmoji).Ok?
        && made == if !emojisFound then Err(RuntimeError)
                   else Ok(CalendarEffects(CalendarMessage(history, botId),
                                           CalendarContent(events, today, mention, allEventsEmoji, syncEmoji).value,
                                           allEventsEmoji, syncEmoji, newId))
  {
    ContentNeedsGrouping(events, today, mention, allEventsEmoji, syncEmoji);
  }

  /** `update_calendar_message` as a method on the platform. */
  method UpdateCalendarMessage(s: Db.Store, c: Client, today: Date, calendarOk: bool, announceOk: bool,
                               emojisFound: bool, mention: string, allEventsEmoji: string, syncEmoji: string, history: seq<Message>)
    returns (r: Outcome<Exception>)
    requires s.Valid()
    modifies c
    ensures var made := CalendarUpdate(s.events, today, calendarOk, announceOk, emojisFound, mention,
                                       allEventsEmoji, syncEmoji, history, c.botId, old(c.nextId));
      && (made.Err? ==> r == Fail(made.error) && c.log == old(c.log) && c.nextId == old(c.nextId))
      && (made.Ok? ==>
            && r == Pass && c.log == old(c.log) + made.value
            && c.nextId == old(c.nextId) + if CalendarMessage(history, c.botId).None? then 1 else 0)
  {
    ghost var made := CalendarUpdate(s.events, today, calendarOk, announceOk, emojisFound, mention,
                                     allEventsEmoji, syncEmoji, history, c.botId, c.nextId);
    CalendarUpdateCases(s.events, today, calendarOk, announceOk, emojisFound, mention, allEventsEmoji, syncEmoji,
                        history, c.botId, c.nextId);
    if !calendarOk || !announceOk {
      return Fail(ValueError);
    }
    var upcoming := UpcomingEvents(s.events, today);
    var grouped := GroupByMonth(upcoming);
    if grouped.Err? {
      return Fail(grouped.error);
    }
    var content := CalendarContent(s.events, today, mention, allEventsEmoji, syncEmoji).value;
    if !emojisFound {
      return Fail(RuntimeError);
    }
    assert made == Ok(CalendarEffects(CalendarMessage(history, c.botId), content, allEventsEmoji, syncEmoji, c.nextId));
    PublishCalendar(c, content, allEventsEmoji, syncEmoji, history);
    r := Pass;
  }
}
