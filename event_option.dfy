/** `moobot/discord/event_option.py`: the event argument of the slash
    commands. Autocomplete offers the live events, newest first, whose choice
    name starts with the typed text (case-insensitively), at most 25 of them;
    a typed argument is read as an event id when it parses as one, and as an
    event name otherwise. */
module EventOption {
  import opened Wrappers
  import opened Exceptions
  import opened Seqs
  import opened Text
  import opened Models
  import opened Db
  import opened Format

  /** Discord's limit on the number of choices. */
  const MaxChoices := 25

  /** An autocomplete choice: what the user sees and the argument it fills in. */
  datatype Choice = Choice(name: string, value: string)

  /** `_format_event_choice_name`: the event's name, " - ", and its duration;
      the duration's exception, if any, is raised. */
  function ChoiceName(e: Event): (r: Result<string, Exception>)
    requires WellTyped(e)
    ensures r.Err? <==> e.startTime.None? && (e.startDate.None? || e.endDate.None?)
    ensures r.Ok? ==> StartsWith(r.value, e.name + " - ")
  {
    var duration :- FormatEventDuration(e.startDate, e.startTime, e.endDate, e.endTime);
    StartsWithConcat(e.name + " - ", duration);
    Ok(e.name + " - " + duration)
  }

  // The query: live rows in descending id order.

  predicate Live(e: Event) {
    !e.deleted
  }

  /** Ids strictly decrease along the sequence. */
  predicate NewestFirstOrder(rows: seq<Event>) {
    forall i, j :: 0 <= i < j < |rows| ==> rows[i].id > rows[j].id
  }

  /** `x` placed into a newest-first sequence before the first row with a
      smaller id. */
  function Insert(x: Event, sorted: seq<Event>): seq<Event> {
    if sorted == [] || sorted[0].id < x.id then [x] + sorted
    else [sorted[0]] + Insert(x, sorted[1..])
  }

  lemma {:induction false} InsertPermutes(x: Event, sorted: seq<Event>)
    ensures multiset(Insert(x, sorted)) == multiset(sorted) + multiset{x}
  {
    if !(sorted == [] || sorted[0].id < x.id) {
      InsertPermutes(x, sorted[1..]);
      assert sorted == [sorted[0]] + sorted[1..];
    }
  }

  lemma {:induction false} InsertOrdered(x: Event, sorted: seq<Event>)
    requires NewestFirstOrder(sorted)
    requires forall k :: 0 <= k < |sorted| ==> sorted[k].id != x.id
    ensures NewestFirstOrder(Insert(x, sorted))
  {
    if !(sorted == [] || sorted[0].id < x.id) {
      var tail := sorted[1..];
      InsertOrdered(x, tail);
      InsertPermutes(x, tail);
      var rest := Insert(x, tail);
      forall k | 0 <= k < |rest| ensures sorted[0].id > rest[k].id {
        assert rest[k] in multiset(rest);
        if rest[k] != x {
          assert rest[k] in tail;
        }
      }
    }
  }

  /** `session.query(MoobloomEvent).filter(deleted == False).order_by(desc(id)).all()`. */
  function NewestFirst(events: seq<Event>): seq<Event> {
    if events == [] then []
    else
      var rest := NewestFirst(events[..|events| - 1]);
      var last := events[|events| - 1];
      if Live(last) then Insert(last, rest) else rest
  }

  /** The query returns the live rows, each once. */
  lemma {:induction false} NewestFirstPermutes(events: seq<Event>)
    ensures multiset(NewestFirst(events)) == multiset(Filter(events, Live))
  {
    if events != [] {
      var init, last := events[..|events| - 1], events[|events| - 1];
      NewestFirstPermutes(init);
      InsertPermutes(last, NewestFirst(init));
    }
  }

  /** The query's rows come newest first: the ids, unique in the table,
      strictly decrease. */
  lemma {:induction false} NewestFirstOrdered(events: seq<Event>)
    ensures UniqueIds(events) ==> NewestFirstOrder(NewestFirst(events))
  {
    if events != [] && UniqueIds(events) {
      var init, last := events[..|events| - 1], events[|events| - 1];
      NewestFirstOrdered(init);
      var rest := NewestFirst(init);
      if Live(last) {
        NewestFirstPermutes(init);
        FilterSound(init, Live);
        forall k | 0 <= k < |rest| ensures rest[k].id != last.id {
          assert rest[k] in multiset(Filter(init, Live));
          assert rest[k] in Filter(init, Live);
          assert rest[k] in init;
          var j :| 0 <= j < |init| && init[j] == rest[k];
          assert events[j] == init[j];
        }
        InsertOrdered(last, rest);
      }
    }
  }

  /** The rows of the query are exactly the live events. */
  lemma NewestFirstRows(events: seq<Event>, e: Event)
    ensures e in NewestFirst(events) <==> e in events && Live(e)
  {
    NewestFirstPermutes(events);
    FilterSound(events, Live);
    FilterAll(events, Live);
    assert e in NewestFirst(events) <==> e in multiset(Filter(events, Live));
  }

  // The comprehension.

  /** The typed text, compared with `str.lower` on both sides. */
  predicate Matches(current: string, name: string) {
    StartsWith(Lower(name), Lower(current))
  }

  /** A row of the query as the comprehension sees it: its id and what
      `_format_event_choice_name` gives for it. */
  datatype Row = Row(id: nat, name: Result<string, Exception>)

  function RowOf(e: Event): Row
    requires WellTyped(e)
  {
    Row(e.id, ChoiceName(e))
  }

  function RowsOf(events: seq<Event>): (r: seq<Row>)
    requires forall k :: 0 <= k < |events| ==> WellTyped(events[k])
    ensures |r| == |events| && forall k :: 0 <= k < |events| ==> r[k] == RowOf(events[k])
  {
    seq(|events|, k requires 0 <= k < |events| => RowOf(events[k]))
  }

  /** The row's choice name matches the typed text. */
  predicate Offered(row: Row, current: string) {
    row.name.Ok? && Matches(current, row.name.value)
  }

  /** `Choice(name=..., value=str(event.id))`. */
  function ChoiceFor(row: Row): Choice
    requires row.name.Ok?
  {
    Choice(row.name.value, NatToString(row.id))
  }

  /** The list comprehension: each row's choice name, in row order, kept
      when it matches; the first exception raised ends it. */
  function Choices(rows: seq<Row>, current: string): (r: Result<seq<Choice>, Exception>)
    ensures r.Err? <==> exists k :: 0 <= k < |rows| && rows[k].name.Err?
  {
    if rows == [] then Ok([])
    else
      var init, last := rows[..|rows| - 1], rows[|rows| - 1];
      assert forall k :: 0 <= k < |init| ==> init[k] == rows[k];
      var before :- Choices(init, current);
      var name :- last.name;
      Ok(before + if Matches(current, name) then [ChoiceFor(last)] else [])
  }

  /** `event_autocomplete`: the matching choices of the live events, newest
      first, cut to the first 25. */
  function EventAutocomplete(events: seq<Event>, current: string): (r: Result<seq<Choice>, Exception>)
    requires forall e :: e in events ==> WellTyped(e)
  {
    var choices :- Choices(QueryRows(events), current);
    Ok(Take(choices, MaxChoices))
  }

  /** Every choice is the choice of a row whose name matches. */
  lemma {:induction false} ChoicesSound(rows: seq<Row>, current: string)
    requires Choices(rows, current).Ok?
    ensures forall c :: c in Choices(rows, current).value ==>
      exists k :: 0 <= k < |rows| && Offered(rows[k], current) && c == ChoiceFor(rows[k])
  {
    if rows != [] {
      var init, last := rows[..|rows| - 1], rows[|rows| - 1];
      assert forall k :: 0 <= k < |init| ==> init[k] == rows[k];
      ChoicesSound(init, current);
    }
  }

  /** Every row whose name matches has its choice in the list. */
  lemma {:induction false} ChoicesComplete(rows: seq<Row>, current: string, k: nat)
    requires Choices(rows, current).Ok? && k < |rows| && Offered(rows[k], current)
    ensures ChoiceFor(rows[k]) in Choices(rows, current).value
  {
    var init, last := rows[..|rows| - 1], rows[|rows| - 1];
    assert forall i :: 0 <= i < |init| ==> init[i] == rows[i];
    if k < |init| {
      ChoicesComplete(init, current, k);
    }
  }

  /** Ids strictly decrease along the rows. */
  predicate RowsNewestFirst(rows: seq<Row>) {
    forall i, j :: 0 <= i < j < |rows| ==> rows[i].id > rows[j].id
  }

  /** A choice's value read back as an id. */
  function ChoiceId(c: Choice): nat
    requires AllDigits(c.value)
  {
    DigitsValue(c.value)
  }

  /** Every choice's value is a decimal id, and reading the values back
      gives strictly decreasing ids when the rows are newest first. */
  lemma {:induction false} ChoicesNewestFirst(rows: seq<Row>, current: string)
    requires RowsNewestFirst(rows) && Choices(rows, current).Ok?
    ensures var cs := Choices(rows, current).value;
      && (forall i :: 0 <= i < |cs| ==> AllDigits(cs[i].value))
      && (forall i, j :: 0 <= i < j < |cs| ==> ChoiceId(cs[i]) > ChoiceId(cs[j]))
  {
    var cs := Choices(rows, current).value;
    ChoicesSound(rows, current);
    forall i | 0 <= i < |cs| ensures AllDigits(cs[i].value) {
      assert cs[i] in cs;
    }
    if rows != [] {
      var init, last := rows[..|rows| - 1], rows[|rows| - 1];
      assert forall k :: 0 <= k < |init| ==> init[k] == rows[k];
      ChoicesNewestFirst(init, current);
      ChoicesSound(init, current);
      var before := Choices(init, current).value;
      var name := last.name.value;
      assert cs == before + if Matches(current, name) then [ChoiceFor(last)] else [];
      forall i, j | 0 <= i < j < |cs| ensures ChoiceId(cs[i]) > ChoiceId(cs[j]) {
        if j < |before| {
          assert cs[i] == before[i] && cs[j] == before[j];
        } else {
          assert cs[j] == ChoiceFor(last);
          NatToStringRoundTrip(last.id);
          assert cs[i] in before;
          var k :| 0 <= k < |init| && Offered(init[k], current) && cs[i] == ChoiceFor(init[k]);
          NatToStringRoundTrip(init[k].id);
        }
      }
    }
  }

  /** The query's rows, as the comprehension sees them. */
  function QueryRows(events: seq<Event>): (r: seq<Row>)
    requires forall e :: e in events ==> WellTyped(e)
    ensures forall row :: row in r <==> exists e :: e in events && Live(e) && row == RowOf(e)
    ensures UniqueIds(events) ==> RowsNewestFirst(r)
  {
    var query := NewestFirst(events);
    forall e ensures e in query <==> e in events && Live(e) {
      NewestFirstRows(events, e);
    }
    var rows := RowsOf(query);
    forall row | row in rows ensures exists e :: e in events && Live(e) && row == RowOf(e) {
      var k :| 0 <= k < |rows| && rows[k] == row;
      assert query[k] in query;
    }
    forall e | e in events && Live(e) ensures RowOf(e) in rows {
      var k :| 0 <= k < |query| && query[k] == e;
      assert rows[k] == RowOf(e);
    }
    NewestFirstOrdered(events);
    rows
  }

  /** `event_autocomplete` raises exactly when some live event's choice
      name does. */
  lemma AutocompleteRaises(events: seq<Event>, current: string)
    requires forall e :: e in events ==> WellTyped(e)
    ensures EventAutocomplete(events, current).Err? <==> exists e :: e in events && Live(e) && ChoiceName(e).Err?
  {
    var rows := QueryRows(events);
    if exists e :: e in events && Live(e) && ChoiceName(e).Err? {
      var e :| e in events && Live(e) && ChoiceName(e).Err?;
      assert RowOf(e) in rows;
    }
    if Choices(rows, current).Err? {
      var k :| 0 <= k < |rows| && rows[k].name.Err?;
      assert rows[k] in rows;
    }
  }

  /** What `event_autocomplete` returns: no more than 25 choices, each the
      choice of a live event whose choice name starts with the typed text,
      up to case, with the ids decreasing down the list. */
  lemma AutocompleteSound(events: seq<Event>, current: string)
    requires UniqueIds(events) && forall e :: e in events ==> WellTyped(e)
    requires EventAutocomplete(events, current).Ok?
    ensures var cs := EventAutocomplete(events, current).value;
      && |cs| <= MaxChoices
      && (forall c :: c in cs ==> exists e :: e in events && Live(e) && Offered(RowOf(e), current) && c == ChoiceFor(RowOf(e)))
      && (forall i :: 0 <= i < |cs| ==> AllDigits(cs[i].value))
      && (forall i, j :: 0 <= i < j < |cs| ==> ChoiceId(cs[i]) > ChoiceId(cs[j]))
  {
    var rows := QueryRows(events);
    ChoicesNewestFirst(rows, current);
    ChoicesSound(rows, current);
    var all := Choices(rows, current).value;
    var cs := Take(all, MaxChoices);
    assert forall i :: 0 <= i < |cs| ==> cs[i] == all[i];
    forall c | c in cs
      ensures exists e :: e in events && Live(e) && Offered(RowOf(e), current) && c == ChoiceFor(RowOf(e))
    {
      var i :| 0 <= i < |cs| && cs[i] == c;
      assert all[i] in all;
      var k :| 0 <= k < |rows| && Offered(rows[k], current) && c == ChoiceFor(rows[k]);
      assert rows[k] in rows;
    }
  }

  /** When no more than 25 live events match, every one of them is offered. */
  lemma AutocompleteComplete(events: seq<Event>, current: string, e: Event)
    requires forall e :: e in events ==> WellTyped(e)
    requires EventAutocomplete(events, current).Ok?
    requires |Choices(QueryRows(events), current).value| <= MaxChoices
    requires e in events && Live(e) && Offered(RowOf(e), current)
    ensures ChoiceFor(RowOf(e)) in EventAutocomplete(events, current).value
  {
    var rows := QueryRows(events);
    assert RowOf(e) in rows;
    var k :| 0 <= k < |rows| && rows[k] == RowOf(e);
    ChoicesComplete(rows, current, k);
    var all := Choices(rows, current).value;
    assert Take(all, MaxChoices) == all;
  }

  // The typed argument.

  predicate IsDigit(c: char) {
    '0' <= c <= '9'
  }

  /** Python's decimal literal inside `int()`: digits, single underscores
      allowed between two digits (it starts and ends with a digit, and no
      two underscores are adjacent). */
  predicate DigitGroups(s: string) {
    && s != []
    && IsDigit(s[0]) && IsDigit(s[|s| - 1])
    && (forall i :: 0 <= i < |s| ==> IsDigit(s[i]) || s[i] == '_')
    && (forall i, j :: 0 <= i < |s| && 0 <= j < |s| && j == i + 1 ==> s[i] != '_' || s[j] != '_')
  }

  /** The digits of `s`, underscores dropped. */
  function Digits(s: string): (r: string)
    requires forall i :: 0 <= i < |s| ==> IsDigit(s[i]) || s[i] == '_'
    ensures AllDigits(r)
  {
    if s == [] then []
    else
      var init := Digits(s[..|s| - 1]);
      if s[|s| - 1] == '_' then init
      else
        assert IsDigit(s[|s| - 1]);
        init + [s[|s| - 1]]
  }

  /** `int(s)`: surrounding whitespace, an optional sign and a decimal
      literal; None where Python raises ValueError. */
  function ParseInt(s: string): (r: Option<int>)
  {
    SignedLiteral(Strip(s))
  }

  /** An optional sign and a decimal literal. */
  function SignedLiteral(t: string): (r: Option<int>)
  {
    if t != [] && t[0] == '-' then
      match Literal(t[1..])
      case Some(v) => Some(-(v as int))
      case None => None
    else if t != [] && t[0] == '+' then Literal(t[1..])
    else Literal(t)
  }

  /** A decimal literal without sign. */
  function Literal(body: string): (r: Option<nat>)
  {
    if DigitGroups(body) then Some(DigitsValue(Digits(body))) else None
  }

  /** Every rendered id parses back to itself. */
  lemma ParseIntRoundTrip(n: nat)
    ensures ParseInt(NatToString(n)) == Some(n)
  {
    var s := NatToString(n);
    assert NoWhitespace(s) by {
      forall i | 0 <= i < |s| ensures !IsWhitespace(s[i]) {
        assert '0' <= s[i] <= '9';
      }
    }
    StripNoWhitespace(s);
    UnsignedLiteral(s);
    NatToStringRoundTrip(n);
  }

  lemma UnsignedLiteral(s: string)
    requires s != [] && AllDigits(s)
    ensures SignedLiteral(s) == Some(DigitsValue(s))
  {
    DigitsLiteral(s);
  }

  lemma NegativeLiteral(t: string, s: string)
    requires |t| >= 2 && t[0] == '-' && t[1..] == s && AllDigits(s)
    ensures SignedLiteral(t) == Some(-(DigitsValue(s) as int))
  {
    DigitsLiteral(s);
  }

  /** Plain digits are a literal of their own value. */
  lemma DigitsLiteral(s: string)
    requires s != [] && AllDigits(s)
    ensures Literal(s) == Some(DigitsValue(s))
  {
    assert '0' <= s[0] <= '9';
    assert DigitGroups(s);
    DigitsNoUnderscore(s);
  }

  lemma {:induction false} DigitsNoUnderscore(s: string)
    requires AllDigits(s)
    ensures Digits(s) == s
  {
    if s != [] {
      DigitsNoUnderscore(s[..|s| - 1]);
    }
  }

  lemma StripNoWhitespace(s: string)
    requires NoWhitespace(s)
    ensures Strip(s) == s
  {
    if s != [] {
      assert TrimStart(s) == s;
      assert TrimEnd(s) == s;
    }
  }

  /** `get_event_from_option`: an argument that parses as an integer and is
      the id of a row gives that row; anything else is looked up by name. */
  function GetEventFromOption(events: seq<Event>, arg: string): (r: Option<Event>)
    requires UniqueIds(events)
    ensures r.Some? ==> r.value in events
    ensures r.Some? && ParseInt(arg) != Some(r.value.id) ==> r.value.name == arg
  {
    var byId := match ParseInt(arg)
      case Some(id) => GetEventById(events, id, false)
      case None => None;
    if byId.Some? then byId
    else GetEventByName(events, arg, false)
  }

  /** An argument that parses as the id of a row, deleted or not, gives
      that row. */
  lemma IdArgumentFindsRow(events: seq<Event>, arg: string, i: nat)
    requires UniqueIds(events) && i < |events| && ParseInt(arg) == Some(events[i].id as int)
    ensures GetEventFromOption(events, arg) == Some(events[i])
  {
    EveryRowFoundById(events, i, false);
  }

  /** A chosen autocomplete value finds its own event. */
  lemma ChosenValueFindsItsEvent(events: seq<Event>, e: Event, c: Choice)
    requires UniqueIds(events) && e in events && c.value == NatToString(e.id)
    ensures GetEventFromOption(events, c.value) == Some(e)
  {
    ParseIntRoundTrip(e.id);
    var i :| 0 <= i < |events| && events[i] == e;
    IdArgumentFindsRow(events, c.value, i);
  }

  /** A minus sign in front of digits negates their value. */
  lemma ParseIntNegative(s: string)
    requires s != [] && AllDigits(s)
    ensures ParseInt("-" + s) == Some(-(DigitsValue(s) as int))
  {
    var t := "-" + s;
    assert |t| == |s| + 1 && t[0] == '-' && t[1..] == s;
    NegativeLiteral(t, s);
    NegatedNotStripped(s);
  }

  lemma NegatedNotStripped(s: string)
    requires AllDigits(s)
    ensures ParseInt("-" + s) == SignedLiteral("-" + s)
  {
    var t := "-" + s;
    forall i | 0 <= i < |t| ensures !IsWhitespace(t[i]) {
      if i > 0 {
        assert t[i] == s[i - 1];
      }
    }
    StripNoWhitespace(t);
  }

  /** `int()` refuses two adjacent underscores, an underscore at either
      end, a sign alone and the empty text. */
  lemma LiteralRejects(t: string, i: nat)
    ensures i + 1 < |t| && t[i] == '_' && t[i + 1] == '_' ==> Literal(t) == None
    ensures t != [] && (t[0] == '_' || t[|t| - 1] == '_') ==> Literal(t) == None
    ensures Literal("") == None
    ensures SignedLiteral("-") == None && SignedLiteral("+") == None
  {
    if i + 1 < |t| && t[i] == '_' && t[i + 1] == '_' {
      assert !DigitGroups(t);
    }
    assert "-"[1..] == "" && "+"[1..] == "";
  }

  /** An argument that is not an id of a row is looked up by name: the first
      row with exactly that name, or nothing. */
  lemma FallsBackToName(events: seq<Event>, arg: string)
    requires UniqueIds(events)
    requires ParseInt(arg).None? || forall k :: 0 <= k < |events| ==> events[k].id != ParseInt(arg).value
    ensures GetEventFromOption(events, arg) == GetEventByName(events, arg, false)
  {
  }
}
