/** `moobot/discord/views/event_modal.py`: the event form. Its time field is
    split into a start and an end, each read by dateutil (an input here), and
    moved a year on when it lies in the past; its description field may open
    with the event's links. Filling the form from a stored event and reading
    it back gives the same links and description. */
module EventModal {
  import opened Wrappers
  import opened Exceptions
  import opened Seqs
  import opened Text
  import opened Dates
  import opened Models

  // ---------------------------------------------------------------------
  // The time field
  // ---------------------------------------------------------------------

  const RangeSeparator: string := " to "

  /** `TimeAwareParserResult`: the datetime dateutil built, whether the text
      gave an hour (`has_time`) and whether it gave a day (`has_date`). */
  datatype Parsed = Parsed(dt: DateTime, hasTime: bool, hasDate: bool)

  /** `time_aware_parser.parse`; `None` stands for dateutil's `ParserError`,
      a `ValueError`. */
  type Parser = string -> Option<Parsed>

  /** `EventTime`. */
  datatype EventTime = EventTime(startDate: Date, startTime: Option<DateTime>, endDate: Date, endTime: Option<DateTime>)

  /** `datetime.max.year`. */
  const MaxYear: int := 9999

  /** `dt.replace(year=dt.year + 1)`: the same day and time a year on; a
      29 February with no counterpart, or a year past 9999, raises
      ValueError. */
  function NextYear(dt: DateTime): (r: Result<DateTime, Exception>)
    ensures r.Ok? ==>
      && r.value.date == Date(dt.date.year + 1, dt.date.month, dt.date.day)
      && r.value.hour == dt.hour && r.value.minute == dt.minute && r.value.second == dt.second
    ensures r.Err? ==> r.error == ValueError
    ensures r.Err? <==> dt.date.year + 1 > MaxYear || !ValidDate(Date(dt.date.year + 1, dt.date.month, dt.date.day))
  {
    var d := Date(dt.date.year + 1, dt.date.month, dt.date.day);
    if dt.date.year + 1 > MaxYear || !ValidDate(d) then Err(ValueError) else Ok(dt.(date := d))
  }

  /** "This event is probably occurring next year": a time before `now` is
      moved a year on. */
  function BumpIfPast(dt: DateTime, now: DateTime): (r: Result<DateTime, Exception>)
    ensures !DateTimeLt(dt, now) ==> r == Ok(dt)
    ensures DateTimeLt(dt, now) ==> r == NextYear(dt)
  {
    if DateTimeLt(dt, now) then NextYear(dt) else Ok(dt)
  }

  /** dateutil's answer for a part of the time field. */
  function ParseOrFail(parse: Parser, text: string): (r: Result<Parsed, Exception>)
    ensures r.Err? <==> parse(text).None?
    ensures r.Ok? ==> r.value == parse(text).value
    ensures r.Err? ==> r.error == ValueError
  {
    match parse(text)
    case None => Err(ValueError)
    case Some(p) => Ok(p)
  }

  /** The end of a range: "9/21 7pm to 10pm" gives the end no day of its own,
      so it takes the start's year, month and day and keeps its own hour. */
  function RangeEnd(parse: Parser, text: string, start: Parsed): (r: Result<Parsed, Exception>)
    ensures r.Err? <==> parse(text).None?
    ensures r.Ok? ==> r.value.hasTime == parse(text).value.hasTime && r.value.hasDate == parse(text).value.hasDate
    ensures r.Ok? && !parse(text).value.hasDate ==> r.value.dt == parse(text).value.dt.(date := start.dt.date)
    ensures r.Ok? && parse(text).value.hasDate ==> r.value == parse(text).value
  {
    var end :- ParseOrFail(parse, text);
    if end.hasDate then Ok(end) else Ok(end.(dt := end.dt.(date := start.dt.date)))
  }

  /** The time field as `_parse_event_time` reads it. */
  function EventTimeOf(raw: string, parse: Parser, now: DateTime): (r: Result<EventTime, Exception>)
    ensures |Split(raw, RangeSeparator)| > 2 ==> r == Err(ValueError)
    ensures r.Err? ==> r.error == ValueError
  {
    var parts := Split(raw, RangeSeparator);
    if |parts| > 2 then Err(ValueError)
    else
      var start0 :- ParseOrFail(parse, parts[0]);
      var end0 :- if |parts| == 2 then RangeEnd(parse, parts[1], start0) else Ok(start0);
      var startDt :- BumpIfPast(start0.dt, now);
      var endDt :- BumpIfPast(end0.dt, now);
      var start := start0.(dt := startDt);
      var end := end0.(dt := endDt);
      if DateTimeLt(end.dt, start.dt) then Err(ValueError)
      else Ok(EventTime(start.dt.date, if start.hasTime then Some(start.dt) else None,
                        end.dt.date, if end.hasTime && end != start then Some(end.dt) else None))
  }

  /** `_parse_event_time`, step by step: the parser results are reassigned
      as the source reassigns `start.dt` and `end.dt`. */
  method ParseEventTime(raw: string, parse: Parser, now: DateTime) returns (r: Result<EventTime, Exception>)
    ensures r == EventTimeOf(raw, parse, now)
  {
    var parts := Split(raw, RangeSeparator);
    if |parts| > 2 {
      return Err(ValueError);
    }
    var parsedStart := parse(parts[0]);
    if parsedStart.None? {
      return Err(ValueError);
    }
    var start := parsedStart.value;
    var end: Parsed;
    if |parts| == 2 {
      var parsedEnd := parse(parts[1]);
      if parsedEnd.None? {
        return Err(ValueError);
      }
      end := parsedEnd.value;
      if !end.hasDate {
        end := end.(dt := end.dt.(date := start.dt.date));
      }
    } else {
      end := start;
    }
    if DateTimeLt(start.dt, now) {
      var next := NextYear(start.dt);
      if next.Err? {
        return Err(next.error);
      }
      start := start.(dt := next.value);
    }
    if DateTimeLt(end.dt, now) {
      var next := NextYear(end.dt);
      if next.Err? {
        return Err(next.error);
      }
      end := end.(dt := next.value);
    }
    if DateTimeLt(end.dt, start.dt) {
      return Err(ValueError);
    }
    r := Ok(EventTime(start.dt.date, if start.hasTime then Some(start.dt) else None,
                      end.dt.date, if end.hasTime && end != start then Some(end.dt) else None));
  }

  /** `<` on datetimes is a strict order: what is not after is before or at. */
  lemma NotAfterMeansDateLe(a: DateTime, b: DateTime)
    requires !DateTimeLt(b, a)
    ensures DateLe(a.date, b.date)
  {
  }

  /** A time that was read starts no later than it ends. */
  lemma StartNotAfterEnd(raw: string, parse: Parser, now: DateTime)
    requires EventTimeOf(raw, parse, now).Ok?
    ensures var t := EventTimeOf(raw, parse, now).value;
      DateLe(t.startDate, t.endDate)
      && (t.startTime.Some? && t.endTime.Some? ==> !DateTimeLt(t.endTime.value, t.startTime.value))
  {
    var parts := Split(raw, RangeSeparator);
    var start0 := parse(parts[0]).value;
    var end0 := if |parts| == 2 then RangeEnd(parse, parts[1], start0).value else start0;
    var startDt := BumpIfPast(start0.dt, now).value;
    var endDt := BumpIfPast(end0.dt, now).value;
    NotAfterMeansDateLe(startDt, endDt);
  }

  /** A single time: it ends the day it starts, with no end time, and has a
      start time exactly when the text gave an hour. */
  lemma SingleTime(raw: string, parse: Parser, now: DateTime)
    requires |Split(raw, RangeSeparator)| == 1
    requires EventTimeOf(raw, parse, now).Ok?
    ensures var t := EventTimeOf(raw, parse, now).value;
      && t.endDate == t.startDate
      && t.endTime.None?
      && (t.startTime.Some? <==> parse(raw).value.hasTime)
  {
    JoinSplit(raw, RangeSeparator);
    assert Split(raw, RangeSeparator)[0] == raw;
  }

  /** "9/21 7PM to 10PM": an end with no day of its own ends on the start's
      day, unless the year bump moved one of them. */
  lemma EndTakesStartDay(raw: string, parse: Parser, now: DateTime)
    requires |Split(raw, RangeSeparator)| == 2
    requires EventTimeOf(raw, parse, now).Ok?
    requires !parse(Split(raw, RangeSeparator)[1]).value.hasDate
    requires !DateTimeLt(parse(Split(raw, RangeSeparator)[0]).value.dt, now)
    requires !DateTimeLt(parse(Split(raw, RangeSeparator)[1]).value.dt.(date := parse(Split(raw, RangeSeparator)[0]).value.dt.date), now)
    ensures EventTimeOf(raw, parse, now).value.endDate == EventTimeOf(raw, parse, now).value.startDate
  {
  }

  /** A start before `now` is moved exactly one year on. */
  lemma PastStartMovesAYear(raw: string, parse: Parser, now: DateTime)
    requires |Split(raw, RangeSeparator)| <= 2
    requires EventTimeOf(raw, parse, now).Ok?
    requires DateTimeLt(parse(Split(raw, RangeSeparator)[0]).value.dt, now)
    ensures var d := parse(Split(raw, RangeSeparator)[0]).value.dt.date;
      EventTimeOf(raw, parse, now).value.startDate == Date(d.year + 1, d.month, d.day)
  {
  }

  // ---------------------------------------------------------------------
  // The description field
  // ---------------------------------------------------------------------

  const Https: string := "https://"
  const Http: string := "http://"
  const UrlKey: string := "url:"
  const ImageUrlKey: string := "image_url:"

  /** The length of `http(s)?://` at the start of `s`, or 0. */
  function SchemeLength(s: string): (n: nat)
    ensures n <= |s|
    ensures n > 0 ==> n == |Https| || n == |Http|
  {
    if StartsWith(s, Https) then |Https| else if StartsWith(s, Http) then |Http| else 0
  }

  /** What `\S+` consumes greedily: the longest prefix with no whitespace. */
  function NonSpaceRun(s: string): (n: nat)
    ensures n <= |s| && NoWhitespace(s[..n])
    ensures n < |s| ==> IsWhitespace(s[n])
  {
    if s == [] || IsWhitespace(s[0]) then 0
    else
      var n := 1 + NonSpaceRun(s[1..]);
      assert s[..n] == [s[0]] + s[1..][..n - 1];
      n
  }

  /** `re.match(URL_REGEX, s)`: the URL that opens `s`, `http://` or
      `https://` and then one or more characters up to the first
      whitespace. */
  function UrlAtStart(s: string): (r: Option<string>)
    ensures r.Some? ==> |r.value| <= |s| && r.value == s[..|r.value|] && |r.value| > |Http|
    ensures r.Some? ==> NoWhitespace(r.value) && (|r.value| < |s| ==> IsWhitespace(s[|r.value|]))
  {
    var k := SchemeLength(s);
    if k == 0 then None
    else
      var n := NonSpaceRun(s[k..]);
      if n == 0 then None
      else
        assert s[..k + n][k..] == s[k..][..n];
        assert forall i :: 0 <= i < k ==> s[i] in Https;
        Some(s[..k + n])
  }

  /** `re.match(rf"^{URL_REGEX}$", s)`: `s` is one URL, and `$` also lets a
      single final newline follow it. */
  predicate IsUrl(s: string) {
    match UrlAtStart(s)
    case None => false
    case Some(u) => |u| == |s| || (|u| == |s| - 1 && s[|s| - 1] == '\n')
  }

  /** `re.match(rf"{key}(?P<url>{URL_REGEX})", part).group("url")`: the
      URL after `key` at the start of a line. */
  function FieldValue(key: string, part: string): (r: Option<string>)
    ensures r.Some? ==> StartsWith(part, key + r.value)
  {
    if StartsWith(part, key) then
      match UrlAtStart(part[|key|..])
      case None => None
      case Some(u) =>
        assert part[..|key| + |u|] == part[..|key|] + part[|key|..][..|u|];
        Some(u)
    else None
  }

  /** The value the `for part in parts` loop leaves for `key`: that of the
      last line that gives one. */
  function LastField(parts: seq<string>, key: string): (r: Option<string>)
    ensures r.Some? ==> exists i :: 0 <= i < |parts| && FieldValue(key, parts[i]) == r
    ensures r.None? <==> forall i :: 0 <= i < |parts| ==> FieldValue(key, parts[i]).None?
  {
    if parts == [] then None
    else match FieldValue(key, parts[|parts| - 1])
      case Some(u) => Some(u)
      case None => LastField(parts[..|parts| - 1], key)
  }

  /** `parts.remove(x)`: the first line equal to `x` taken out, or
      ValueError when there is none. */
  function RemoveFirst(parts: seq<string>, x: string): (r: Result<seq<string>, Exception>)
    ensures r.Err? <==> x !in parts
    ensures r.Err? ==> r.error == ValueError
    ensures r.Ok? ==> exists i :: 0 <= i < |parts| && parts[i] == x && x !in parts[..i]
                        && r.value == parts[..i] + parts[i + 1..]
  {
    match FirstIndex(parts, (p: string) => p == x)
    case None => Err(ValueError)
    case Some(i) => assert x !in parts[..i]; Ok(parts[..i] + parts[i + 1..])
  }

  /** `EventDescriptionAndURLs`. */
  datatype Described = Described(description: Option<string>, url: Option<string>, imageUrl: Option<string>)

  /** The opening-links branch once the event's URL `link` is popped and
      `rest` is not empty: an image URL may come next, and what is left is
      the description. */
  function AfterLink(link: string, rest: seq<string>): (r: Described)
    requires rest != []
    ensures r.url == Some(link)
    ensures r.imageUrl.Some? <==> IsUrl(rest[0])
  {
    if IsUrl(rest[0]) then Described(OrNone(Join(rest[1..], "\n")), Some(link), Some(rest[0]))
    else Described(OrNone(Join(rest, "\n")), Some(link), None)
  }

  /** The `url:`/`image_url:` branch: each key keeps the value of the last
      line giving one, and the first line equal to exactly that line is
      taken out; a line with more after its URL equals no such line, and
      `parts.remove` raises ValueError. */
  function FieldLines(parts: seq<string>): (r: Result<Described, Exception>)
    ensures r.Err? ==> r.error == ValueError
    ensures r.Ok? ==> r.value.url == LastField(parts, UrlKey) && r.value.imageUrl == LastField(parts, ImageUrlKey)
  {
    var url := LastField(parts, UrlKey);
    var image := LastField(parts, ImageUrlKey);
    var kept :- RemoveFound(parts, UrlKey, url);
    var left :- RemoveFound(kept, ImageUrlKey, image);
    Ok(Described(OrNone(Join(left, "\n")), url, image))
  }

  /** `_parse_event_description` as written: a field that is a URL and
      nothing else leaves no line to look at after the pop, and `parts[0]`
      raises IndexError. */
  function DescribedAsWritten(raw: Option<string>): (r: Result<Described, Exception>)
    ensures raw.None? ==> r == Ok(Described(None, None, None))
    ensures r.Err? ==> r.error == ValueError || r.error == IndexError
  {
    if raw.None? then Ok(Described(None, None, None))
    else
      var parts := Split(raw.value, "\n");
      if IsUrl(parts[0]) then
        if parts[1..] == [] then Err(IndexError) else Ok(AfterLink(parts[0], parts[1..]))
      else FieldLines(parts)
  }

  /** The description field as evidently intended: a lone URL is the event's
      URL, with no image and no description. Only ValueError, which
      `on_submit` reports, can be raised. */
  function DescribedOf(raw: Option<string>): (r: Result<Described, Exception>)
    ensures raw.None? ==> r == Ok(Described(None, None, None))
    ensures r.Err? ==> r.error == ValueError
  {
    if raw.None? then Ok(Described(None, None, None))
    else
      var parts := Split(raw.value, "\n");
      if IsUrl(parts[0]) then
        if parts[1..] == [] then Ok(Described(None, Some(parts[0]), None)) else Ok(AfterLink(parts[0], parts[1..]))
      else FieldLines(parts)
  }

  /** The two readings differ only where the one as written raises
      IndexError. */
  lemma DescribedAgreeButIndexError(raw: Option<string>)
    ensures DescribedAsWritten(raw) != Err(IndexError) ==> DescribedAsWritten(raw) == DescribedOf(raw)
    ensures DescribedAsWritten(raw) == Err(IndexError) ==> DescribedOf(raw).Ok?
  {
  }

  /** `_parse_event_description`, with `parts` popped and removed from in
      place as the source does. */
  method ParseEventDescription(raw: Option<string>) returns (r: Result<Described, Exception>)
    ensures r == DescribedAsWritten(raw)
  {
    if raw.None? {
      return Ok(Described(None, None, None));
    }
    var url: Option<string> := None;
    var image: Option<string> := None;
    var parts := Split(raw.value, "\n");
    if IsUrl(parts[0]) {
      url := Some(parts[0]);
      parts := parts[1..];
      if parts == [] {
        return Err(IndexError);
      }
      if IsUrl(parts[0]) {
        image := Some(parts[0]);
        parts := parts[1..];
      }
    } else {
      url, image := ScanFields(parts);
      if url.Some? {
        var removed := RemoveFirst(parts, UrlKey + url.value);
        if removed.Err? {
          return Err(removed.error);
        }
        parts := removed.value;
      }
      if image.Some? {
        var removed := RemoveFirst(parts, ImageUrlKey + image.value);
        if removed.Err? {
          return Err(removed.error);
        }
        parts := removed.value;
      }
    }
    r := Ok(Described(OrNone(Join(parts, "\n")), url, image));
  }

  /** A URL as the links are stored: `URL_REGEX` matches all of it. */
  predicate WholeUrl(u: string) {
    UrlAtStart(u) == Some(u)
  }

  /** `\S+` runs to the first whitespace. */
  lemma {:induction false} NonSpaceRunStops(a: string, b: string)
    requires NoWhitespace(a) && (b == [] || IsWhitespace(b[0]))
    ensures NonSpaceRun(a + b) == |a|
    decreases |a|
  {
    if a == [] {
      assert a + b == b;
    } else {
      assert (a + b)[0] == a[0] && (a + b)[1..] == a[1..] + b;
      NonSpaceRunStops(a[1..], b);
    }
  }

  /** A whole URL followed by whitespace, or by nothing, is matched up to
      the whitespace. */
  lemma UrlAtStartExtends(u: string, rest: string)
    requires WholeUrl(u)
    requires rest == [] || IsWhitespace(rest[0])
    ensures UrlAtStart(u + rest) == Some(u)
  {
    var s := u + rest;
    assert s[..|Https|] == u[..|Https|] && s[..|Http|] == u[..|Http|];
    var k := SchemeLength(u);
    assert SchemeLength(s) == k;
    assert s[k..] == u[k..] + rest;
    assert NoWhitespace(u[k..]) by {
      forall i | 0 <= i < |u| - k ensures !IsWhitespace(u[k..][i]) {
        assert u[k..][i] == u[k + i];
      }
    }
    NonSpaceRunStops(u[k..], rest);
    assert s[..|u|] == u;
  }

  /** What `URL_REGEX` matches opens with the `h` of its scheme. */
  lemma UrlOpensWithH(s: string)
    requires UrlAtStart(s).Some?
    ensures s[0] == 'h'
  {
    assert SchemeLength(s) > 0;
    assert Https[0] == 'h' && Http[0] == 'h';
  }

  /** A whole URL holds no line break. */
  lemma WholeUrlOneLine(u: string)
    requires WholeUrl(u)
    ensures '\n' !in u
  {
    assert IsWhitespace('\n');
  }

  /** The line `url:` + a whole URL gives that URL for `url:` and nothing for
      `image_url:`, and is not itself a URL. */
  lemma UrlLine(u: string)
    requires WholeUrl(u)
    ensures FieldValue(UrlKey, UrlKey + u) == Some(u)
    ensures FieldValue(ImageUrlKey, UrlKey + u).None?
    ensures !IsUrl(UrlKey + u) && '\n' !in UrlKey + u
  {
    var line := UrlKey + u;
    assert line[..|UrlKey|] == UrlKey && line[|UrlKey|..] == u;
    assert line[0] == 'u' && ImageUrlKey[0] == 'i';
    if IsUrl(line) {
      UrlOpensWithH(line);
    }
    WholeUrlOneLine(u);
  }

  /** The line `image_url:` + a whole URL gives that URL for `image_url:` and
      nothing for `url:`, and is not itself a URL. */
  lemma ImageLine(u: string)
    requires WholeUrl(u)
    ensures FieldValue(ImageUrlKey, ImageUrlKey + u) == Some(u)
    ensures FieldValue(UrlKey, ImageUrlKey + u).None?
    ensures !IsUrl(ImageUrlKey + u) && '\n' !in ImageUrlKey + u
  {
    var line := ImageUrlKey + u;
    assert line[..|ImageUrlKey|] == ImageUrlKey && line[|ImageUrlKey|..] == u;
    assert line[0] == 'i' && UrlKey[0] == 'u';
    if IsUrl(line) {
      UrlOpensWithH(line);
    }
    WholeUrlOneLine(u);
  }

  /** A description that is one URL and nothing else: the source's pop
      leaves `parts` empty and `parts[0]` raises IndexError, which
      `on_submit` does not catch. */
  lemma LoneUrlRaisesIndexError(x: string)
    requires IsUrl(x) && '\n' !in x
    ensures DescribedAsWritten(Some(x)) == Err(IndexError)
  {
    SplitNone(x, '\n');
  }

  /** The intended reading of the same field: the URL is the event's link. */
  lemma LoneUrlIsTheLink(x: string)
    requires IsUrl(x) && '\n' !in x
    ensures DescribedOf(Some(x)) == Ok(Described(None, Some(x), None))
  {
    SplitNone(x, '\n');
  }

  /** Two opening URL lines are the event's link and its image, and the
      lines after them are the description. */
  lemma LeadingUrls(x: string, y: string, rest: string)
    requires IsUrl(x) && IsUrl(y) && '\n' !in x && '\n' !in y
    ensures DescribedOf(Some(x + "\n" + y + "\n" + rest)) == Ok(Described(OrNone(rest), Some(x), Some(y)))
    ensures DescribedAsWritten(Some(x + "\n" + y + "\n" + rest)) == DescribedOf(Some(x + "\n" + y + "\n" + rest))
  {
    SplitCons(y, '\n', rest);
    SplitCons(x, '\n', y + "\n" + rest);
    assert x + "\n" + y + "\n" + rest == x + ['\n'] + (y + ['\n'] + rest);
    JoinSplit(rest, "\n");
    var parts := Split(x + "\n" + y + "\n" + rest, "\n");
    assert parts[1..][1..] == Split(rest, "\n");
  }

  /** A `url:` line with text after its URL: the URL is found, but no line
      equals `url:` + URL, so `parts.remove` raises ValueError. */
  lemma TrailingTextRejected(u: string, tail: string)
    requires WholeUrl(u) && '\n' !in tail
    ensures DescribedOf(Some(UrlKey + u + " " + tail)) == Err(ValueError)
  {
    var line := UrlKey + u + " " + tail;
    WholeUrlOneLine(u);
    SplitNone(line, '\n');
    assert line[..|UrlKey|] == UrlKey && line[|UrlKey|..] == u + (" " + tail);
    UrlAtStartExtends(u, " " + tail);
    assert FieldValue(UrlKey, line) == Some(u);
    assert line[0] == 'u';
    if IsUrl(line) {
      UrlOpensWithH(line);
    }
    assert |UrlKey + u| < |line|;
    assert LastField([line], UrlKey) == Some(u);
    assert RemoveFirst([line], UrlKey + u) == Err(ValueError);
  }

  /** The first line equal to `x` is the first line. */
  lemma RemoveHead(parts: seq<string>, x: string)
    requires parts != [] && parts[0] == x
    ensures RemoveFirst(parts, x) == Ok(parts[1..])
  {
    assert FirstIndex(parts, (p: string) => p == x) == Some(0);
    assert parts[..0] + parts[1..] == parts[1..];
  }

  /** When exactly one line gives a value for `key`, that value is the one
      kept. */
  lemma OnlyValueAt(parts: seq<string>, key: string, i: nat, v: string)
    requires i < |parts| && FieldValue(key, parts[i]) == Some(v)
    requires forall j :: 0 <= j < |parts| && j != i ==> FieldValue(key, parts[j]).None?
    ensures LastField(parts, key) == Some(v)
  {
  }

  // ---------------------------------------------------------------------
  // Filling the form from a stored event, and reading it back
  // ---------------------------------------------------------------------

  /** `value or None` on an optional string. */
  function Kept(s: Option<string>): (r: Option<string>)
    ensures r.Some? <==> Truthy(s)
    ensures r.Some? ==> r == s
  {
    if Truthy(s) then s else None
  }

  /** The line `key` + `v`, when `v` is set and non-empty. */
  function OptionalLine(key: string, v: Option<string>): (r: seq<string>)
    ensures |r| <= 1 && (r != [] <==> Truthy(v))
  {
    if Truthy(v) then [key + v.value] else []
  }

  /** The link lines `_prefill_fields` writes, each only when its link is set
      and non-empty: `url:` and then `image_url:`. */
  function LinkLines(e: Event): (r: seq<string>)
    ensures |r| <= 2
  {
    OptionalLine(UrlKey, e.url) + OptionalLine(ImageUrlKey, e.imageUrl)
  }

  /** The link lines followed by the description, when that is non-empty. */
  function DescriptionLines(e: Event): (r: seq<string>)
    ensures r == [] <==> !Truthy(e.url) && !Truthy(e.imageUrl) && !Truthy(e.description)
    ensures forall k :: 0 <= k < |r| ==> r[k] != ""
  {
    LinkLines(e) + if Truthy(e.description) then [e.description.value] else []
  }

  /** The description input's default: the lines joined by newlines, and no
      default when there is none (`any(description_parts)` fails). */
  function PrefilledDescription(e: Event): (r: Option<string>)
    ensures r.None? <==> DescriptionLines(e) == []
    ensures r.Some? ==> r.value != ""
  {
    var lines := DescriptionLines(e);
    if lines == [] then None
    else
      JoinStartsWithFirst(lines, "\n");
      Some(Join(lines, "\n"))
  }

  /** A description that reads back as itself: none of its lines gives a
      `url:` or `image_url:` value and, when it opens the field, its first
      line is not a URL. */
  predicate PlainDescription(d: string, opensField: bool) {
    (forall line | line in Split(d, "\n") :: FieldValue(UrlKey, line).None? && FieldValue(ImageUrlKey, line).None?)
    && (opensField ==> !IsUrl(Split(d, "\n")[0]))
  }

  /** Splitting one-line heads joined with a last piece `d` gives the heads
      and then the pieces of `d`. */
  lemma {:induction false} SplitAfterHeads(heads: seq<string>, d: string)
    requires forall h | h in heads :: '\n' !in h
    ensures Split(Join(heads + [d], "\n"), "\n") == heads + Split(d, "\n")
    decreases |heads|
  {
    if heads == [] {
      assert heads + [d] == [d];
    } else {
      var head, more := heads[0], heads[1..];
      var tail := more + [d];
      var joined := Join(tail, "\n");
      var whole := Join(heads + [d], "\n");
      assert heads + [d] == [head] + tail;
      assert whole == head + ['\n'] + joined;
      assert head in heads;
      SplitCons(head, '\n', joined);
      assert Split(whole, "\n") == [head] + Split(joined, "\n");
      assert forall h | h in more :: h in heads;
      SplitAfterHeads(more, d);
      assert heads == [head] + more;
      AppendAssoc([head], more, Split(d, "\n"));
    }
  }

  /** A first line that gives `v` for `key` and nothing for `other`, ahead
      of lines that give nothing for `key`: `v` is kept for `key`, and
      `other` keeps what the lines after it give. */
  lemma HeadReadBack(line: string, key: string, other: string, v: string, rest: seq<string>)
    requires FieldValue(key, line) == Some(v) && FieldValue(other, line).None?
    requires forall j :: 0 <= j < |rest| ==> FieldValue(key, rest[j]).None?
    ensures LastField([line] + rest, key) == Some(v)
    ensures LastField([line] + rest, other) == LastField(rest, other)
  {
    var parts := [line] + rest;
    forall j | 0 <= j < |parts| && j != 0
      ensures FieldValue(key, parts[j]).None?
    {
      assert parts[j] == rest[j - 1];
    }
    OnlyValueAt(parts, key, 0, v);
    assert parts[1..] == rest;
    LastFieldPastHead(parts, other);
  }

  /** Taking out the line that gave `v`, as `parts.remove` does once `v`
      is found. */
  function RemoveFound(parts: seq<string>, key: string, v: Option<string>): Result<seq<string>, Exception> {
    if v.Some? then RemoveFirst(parts, key + v.value) else Ok(parts)
  }

  /** An optional line for `key` ahead of lines that give nothing for `key`:
      its value is kept for `key`, taking it out leaves those lines, and
      `other` keeps what those lines give. */
  lemma OptionalLineReadBack(key: string, other: string, v: Option<string>, rest: seq<string>)
    requires Truthy(v) ==> FieldValue(key, key + v.value) == v && FieldValue(other, key + v.value).None?
    requires forall j :: 0 <= j < |rest| ==> FieldValue(key, rest[j]).None?
    ensures LastField(OptionalLine(key, v) + rest, key) == Kept(v)
    ensures LastField(OptionalLine(key, v) + rest, other) == LastField(rest, other)
    ensures RemoveFound(OptionalLine(key, v) + rest, key, Kept(v)) == Ok(rest)
  {
    var parts := OptionalLine(key, v) + rest;
    if Truthy(v) {
      HeadReadBack(key + v.value, key, other, v.value, rest);
      RemoveHead(parts, key + v.value);
      assert parts[1..] == rest;
    } else {
      assert parts == rest;
    }
  }

  /** The `url:`/`image_url:` branch on the link lines followed by lines
      that give no values finds the links, takes their lines out and keeps
      the rest. */
  lemma FieldLinesReadBack(url: Option<string>, image: Option<string>, rest: seq<string>)
    requires Truthy(url) ==> WholeUrl(url.value)
    requires Truthy(image) ==> WholeUrl(image.value)
    requires forall j :: 0 <= j < |rest| ==> FieldValue(UrlKey, rest[j]).None? && FieldValue(ImageUrlKey, rest[j]).None?
    ensures FieldLines(OptionalLine(UrlKey, url) + OptionalLine(ImageUrlKey, image) + rest)
            == Ok(Described(OrNone(Join(rest, "\n")), Kept(url), Kept(image)))
  {
    var afterUrl := OptionalLine(ImageUrlKey, image) + rest;
    var parts := OptionalLine(UrlKey, url) + afterUrl;
    AppendAssoc(OptionalLine(UrlKey, url), OptionalLine(ImageUrlKey, image), rest);
    if Truthy(image) {
      ImageLine(image.value);
    }
    if Truthy(url) {
      UrlLine(url.value);
    }
    OptionalLineReadBack(ImageUrlKey, UrlKey, image, rest);
    assert forall j :: 0 <= j < |afterUrl| ==> FieldValue(UrlKey, afterUrl[j]).None? by {
      if Truthy(image) {
        assert afterUrl == [ImageUrlKey + image.value] + rest;
      } else {
        assert afterUrl == rest;
      }
    }
    OptionalLineReadBack(UrlKey, ImageUrlKey, url, afterUrl);
    assert LastField(rest, UrlKey).None?;
    assert LastField(parts, UrlKey) == Kept(url);
    assert LastField(parts, ImageUrlKey) == Kept(image);
    assert RemoveFound(parts, UrlKey, Kept(url)) == Ok(afterUrl);
    assert RemoveFound(afterUrl, ImageUrlKey, Kept(image)) == Ok(rest);
    FieldLinesSteps(parts, Kept(url), Kept(image), afterUrl, rest);
  }

  /** The `url:`/`image_url:` branch, step by step. */
  lemma FieldLinesSteps(parts: seq<string>, url: Option<string>, image: Option<string>, kept: seq<string>, left: seq<string>)
    requires LastField(parts, UrlKey) == url && LastField(parts, ImageUrlKey) == image
    requires RemoveFound(parts, UrlKey, url) == Ok(kept) && RemoveFound(kept, ImageUrlKey, image) == Ok(left)
    ensures FieldLines(parts) == Ok(Described(OrNone(Join(left, "\n")), url, image))
  {
  }

  /** A first line that gives no value does not change the value kept. */
  lemma {:induction false} LastFieldPastHead(parts: seq<string>, key: string)
    requires parts != [] && FieldValue(key, parts[0]).None?
    ensures LastField(parts, key) == LastField(parts[1..], key)
    decreases |parts|
  {
    if |parts| > 1 {
      var n := |parts|;
      assert parts[1..][..n - 2] == parts[..n - 1][1..];
      assert parts[1..][n - 2] == parts[n - 1];
      LastFieldPastHead(parts[..n - 1], key);
    }
  }

  /** Filling the description input from an event and reading it back gives
      the event's description and links again, when the links are whole URLs
      and the description is plain; this holds for the source as written
      too. */
  lemma PrefillRoundTrip(e: Event)
    requires Truthy(e.url) ==> WholeUrl(e.url.value)
    requires Truthy(e.imageUrl) ==> WholeUrl(e.imageUrl.value)
    requires Truthy(e.description) ==> PlainDescription(e.description.value, LinkLines(e) == [])
    ensures DescribedOf(PrefilledDescription(e)) == Ok(Described(Kept(e.description), Kept(e.url), Kept(e.imageUrl)))
    ensures DescribedAsWritten(PrefilledDescription(e)) == DescribedOf(PrefilledDescription(e))
  {
    var heads := LinkLines(e);
    var lines := DescriptionLines(e);
    if lines != [] {
      if Truthy(e.url) {
        UrlLine(e.url.value);
      }
      if Truthy(e.imageUrl) {
        ImageLine(e.imageUrl.value);
      }
      assert forall h | h in heads :: '\n' !in h && !IsUrl(h);
      var plain := if Truthy(e.description) then Split(e.description.value, "\n") else [];
      var parts := Split(Join(lines, "\n"), "\n");
      if Truthy(e.description) {
        SplitAfterHeads(heads, e.description.value);
        JoinSplit(e.description.value, "\n");
        assert forall j :: 0 <= j < |plain| ==> plain[j] in plain;
      } else {
        assert lines == heads;
        SplitJoin(heads, '\n');
        assert heads + plain == heads;
      }
      assert parts == heads + plain;
      assert !IsUrl(parts[0]) by {
        if heads != [] {
          assert parts[0] in heads;
        }
      }
      FieldLinesReadBack(e.url, e.imageUrl, plain);
    }
  }


  /** The `for part in parts` loop: each line's `url:` value, or failing
      that its `image_url:` value, replaces the one found before. */
  method ScanFields(parts: seq<string>) returns (url: Option<string>, image: Option<string>)
    ensures url == LastField(parts, UrlKey) && image == LastField(parts, ImageUrlKey)
  {
    url, image := None, None;
    var i := 0;
    while i < |parts|
      invariant i <= |parts|
      invariant url == LastField(parts[..i], UrlKey)
      invariant image == LastField(parts[..i], ImageUrlKey)
    {
      assert parts[..i + 1][..i] == parts[..i];
      var u := FieldValue(UrlKey, parts[i]);
      if u.Some? {
        url := u;
      } else {
        var v := FieldValue(ImageUrlKey, parts[i]);
        if v.Some? {
          image := v;
        }
      }
      KeysExclusive(parts[i]);
      i := i + 1;
    }
    assert parts[..i] == parts;
  }

  /** No line gives both a `url:` and an `image_url:` value, so the `elif`
      of the loop never hides one. */
  lemma KeysExclusive(part: string)
    ensures FieldValue(UrlKey, part).None? || FieldValue(ImageUrlKey, part).None?
  {
    if FieldValue(UrlKey, part).Some? {
      assert part[0] == UrlKey[0] == 'u';
      assert ImageUrlKey[0] == 'i';
    }
  }

  // ---------------------------------------------------------------------
  // The form
  // ---------------------------------------------------------------------

  /** The form's text inputs. */
  datatype Field = NameField | ChannelNameField | TimeField | LocationField | DescriptionField

  /** `self.children`: the inputs in the order the form declares them. */
  const FormFields: seq<Field> := [NameField, ChannelNameField, TimeField, LocationField, DescriptionField]

  /** The default `_prefill_fields` gives an input: the name always, the
      channel name and the location when set and non-empty, the time as
      `timeText` (what `format_event_duration_for_event_modal` renders,
      which is not part of this model), and the description lines when
      there are any. */
  function PrefillFor(e: Event, timeText: string, f: Field): Option<string> {
    match f
    case NameField => Some(e.name)
    case ChannelNameField => Kept(e.channelName)
    case TimeField => Some(timeText)
    case LocationField => Kept(e.location)
    case DescriptionField => PrefilledDescription(e)
  }

  /** The defaults the inputs `fields` get from `e`, given in turn. */
  function Prefill(e: Event, timeText: string, fields: seq<Field>): map<Field, string> {
    if fields == [] then map[]
    else
      var before := Prefill(e, timeText, fields[..|fields| - 1]);
      match PrefillFor(e, timeText, fields[|fields| - 1])
      case Some(v) => before[fields[|fields| - 1] := v]
      case None => before
  }

  /** Exactly the inputs that have a default get one, and it is theirs. */
  lemma {:induction false} PrefillGives(e: Event, timeText: string, fields: seq<Field>, f: Field)
    ensures f in Prefill(e, timeText, fields) <==> f in fields && PrefillFor(e, timeText, f).Some?
    ensures f in Prefill(e, timeText, fields) ==> Prefill(e, timeText, fields)[f] == PrefillFor(e, timeText, f).value
  {
    if fields != [] {
      var init := fields[..|fields| - 1];
      PrefillGives(e, timeText, init, f);
      assert fields == init + [fields[|fields| - 1]];
      assert f in fields <==> f in init || f == fields[|fields| - 1];
    }
  }

  lemma UnionUpdate(a: map<Field, string>, b: map<Field, string>, k: Field, v: string)
    ensures (a + b)[k := v] == a + b[k := v]
  {
  }

  /** `CreateEventModal`: its inputs and the defaults shown in them. */
  class CreateEventModal {
    const children: seq<Field>
    var defaults: map<Field, string>

    /** A new form, filled from `prefill` when one is given. */
    constructor (prefill: Option<Event>, timeText: string)
      ensures children == FormFields
      ensures prefill.None? ==> defaults == map[]
      ensures prefill.Some? ==> defaults == Prefill(prefill.value, timeText, FormFields)
    {
      children := FormFields;
      defaults := map[];
      new;
      if prefill.Some? {
        PrefillFields(prefill.value, timeText);
        assert map[] + Prefill(prefill.value, timeText, FormFields) == Prefill(prefill.value, timeText, FormFields);
      }
    }

    /** `_prefill_fields`: each input in turn is given its default, if it
        has one; the others keep theirs. */
    method PrefillFields(e: Event, timeText: string)
      modifies this
      ensures defaults == old(defaults) + Prefill(e, timeText, children)
    {
      var i := 0;
      while i < |children|
        invariant i <= |children|
        invariant defaults == old(defaults) + Prefill(e, timeText, children[..i])
      {
        var d := PrefillFor(e, timeText, children[i]);
        assert children[..i + 1][..i] == children[..i];
        if d.Some? {
          ghost var before := Prefill(e, timeText, children[..i]);
          UnionUpdate(old(defaults), before, children[i], d.value);
          defaults := defaults[children[i] := d.value];
        }
        i := i + 1;
      }
      assert children[..i] == children;
    }
  }

  /** What submitting the form leads to: the apology for the time field,
      the apology for the description field, or the event handed to the
      form's callback. */
  datatype Submission = TimeRejected | DescriptionRejected | Submitted(event: Event)

  /** What an input holds on submit: its text, or "" when it is empty. */
  function ValueOf(values: map<Field, string>, f: Field): string {
    if f in values then values[f] else ""
  }

  /** `on_submit`: the time is read first and the description second, and a
      ValueError from either is answered with its apology; otherwise the
      event is built from the inputs. The row's id, announcement and channel
      are not set yet (0 and None here), and it is neither out of sync nor
      deleted. */
  function OnSubmit(values: map<Field, string>, parse: Parser, now: DateTime): (r: Submission)
    ensures r == TimeRejected <==> EventTimeOf(ValueOf(values, TimeField), parse, now).Err?
    ensures r == DescriptionRejected <==> EventTimeOf(ValueOf(values, TimeField), parse, now).Ok?
                                          && DescribedOf(OrNone(ValueOf(values, DescriptionField))).Err?
    ensures r.Submitted? ==>
      && r.event.name == ValueOf(values, NameField)
      && (r.event.createChannel <==> ValueOf(values, ChannelNameField) != "")
      && (r.event.createChannel <==> r.event.channelName.Some?)
      && (r.event.channelName.Some? ==> r.event.channelName.value == ValueOf(values, ChannelNameField))
      && r.event.location == Some(ValueOf(values, LocationField))
      && r.event.startDate.Some? && r.event.endDate.Some?
      && DateLe(r.event.startDate.value, r.event.endDate.value)
  {
    var channelName := OrNone(ValueOf(values, ChannelNameField));
    var description := OrNone(ValueOf(values, DescriptionField));
    match EventTimeOf(ValueOf(values, TimeField), parse, now)
    case Err(_) => TimeRejected
    case Ok(t) =>
      match DescribedOf(description)
      case Err(_) => DescriptionRejected
      case Ok(d) =>
        StartNotAfterEnd(ValueOf(values, TimeField), parse, now);
        Submitted(Event(0, ValueOf(values, NameField), channelName.Some?, channelName,
                        Some(t.startDate), t.startTime, Some(t.endDate), t.endTime,
                        Some(ValueOf(values, LocationField)), d.description, d.url, d.imageUrl,
                        None, None, None, false, false))
  }

  /** Submitting a form filled from `e` and left as it was gives back `e`'s
      name, channel name, location, description and links (empty ones as
      None, an empty location as ""), and asks for a channel exactly when
      `e` names one. */
  lemma ResubmitKeepsEvent(e: Event, timeText: string, parse: Parser, now: DateTime)
    requires Truthy(e.url) ==> WholeUrl(e.url.value)
    requires Truthy(e.imageUrl) ==> WholeUrl(e.imageUrl.value)
    requires Truthy(e.description) ==> PlainDescription(e.description.value, LinkLines(e) == [])
    requires EventTimeOf(timeText, parse, now).Ok?
    ensures var r := OnSubmit(Prefill(e, timeText, FormFields), parse, now);
      && r.Submitted?
      && r.event.name == e.name
      && r.event.channelName == Kept(e.channelName)
      && r.event.createChannel == Truthy(e.channelName)
      && r.event.location == Some(if Truthy(e.location) then e.location.value else "")
      && r.event.description == Kept(e.description)
      && r.event.url == Kept(e.url)
      && r.event.imageUrl == Kept(e.imageUrl)
  {
    var values := Prefill(e, timeText, FormFields);
    forall f: Field {
      PrefillGives(e, timeText, FormFields, f);
    }
    assert ValueOf(values, NameField) == e.name;
    assert ValueOf(values, TimeField) == timeText;
    assert ValueOf(values, ChannelNameField) == if Truthy(e.channelName) then e.channelName.value else "";
    assert ValueOf(values, LocationField) == if Truthy(e.location) then e.location.value else "";
    assert OrNone(ValueOf(values, DescriptionField)) == PrefilledDescription(e);
    PrefillRoundTrip(e);
  }
}
