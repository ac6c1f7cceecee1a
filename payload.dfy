/** `format_event_message`: the posted message, the payload the button
    keeps for the external event, and the two link URLs. URL quoting,
    `strftime`, `str.capitalize`, `str()` of non-scalar values and
    `str.isalnum` are the parameters gathered in `Formatters`. */
module Payload {
  import opened Json
  import opened Text
  import opened Cleaning
  import opened Extraction
  import opened Seqs

  datatype Formatters = Formatters(
    quote: string -> string,       // urllib.parse.quote
    stamp: int -> string,          // local time, '%Y%m%dT%H%M%S'
    dayName: int -> string,        // local time, '%A'
    dayMonth: int -> string,       // local time, '%d %B'
    clock: int -> string,          // local time, '%H:%M'
    capitalize: string -> string,  // str.capitalize
    render: Json -> string,        // str() of numbers, lists and objects
    alnum: char -> bool)           // str.isalnum

  const Hour := 3600
  const Day := 86400
  const CalendarPrefix := "https://calendar.google.com/calendar/render?action=TEMPLATE"
  const MapsPrefix := "https://www.google.com/maps/search/?api=1&query="
  const OnlineText := " | \U{260E}\U{FE0F} Online"

  /** The `event_data` dictionary handed to the button. */
  datatype EventData = EventData(
    name: string,
    start: int,
    end: int,
    location: Option<Json>,
    description: string,
    url: Json)

  datatype Formatted = Formatted(
    message: string,
    data: EventData,
    calendarUrl: string,
    locationUrl: Option<string>)

  /** `(event_time - today).days`: whole days between the two instants,
      rounded down as `timedelta.days` is. */
  function DaysDiff(time: int, now: int): (d: int)
    ensures d * Day <= time - now < (d + 1) * Day
  {
    (time - now) / Day
  }

  /** `location['name'] if isinstance(location, dict) else location`:
      the dictionary an extractor builds always has a `name`; a listing's
      own `name` object kept as the bare location may lack one, and then
      the lookup raises `KeyError`. */
  function LocationText(l: Location): (r: Option<Json>)
    ensures l.Place? ==> r == Some(l.name)
    ensures l.Plain? && !l.value.JObj? ==> r == Some(l.value)
    ensures l.Plain? && l.value.JObj? ==>
      (r.Some? <==> "name" in l.value.fields) && (r.Some? ==> r.value == l.value.fields["name"])
  {
    match l
    case Plain(v) =>
      if v.JObj? then (if "name" in v.fields then Some(v.fields["name"]) else None)
      else Some(v)
    case Place(n, _) => Some(n)
  }

  /** `location_text and str(location_text).strip()`. */
  predicate HasLocation(render: Json -> string, t: Json)
  {
    Truthy(t) && Strip(Str(render, t)) != ""
  }

  /** The calendar link without its optional `&location=` parameter. */
  function CalendarBase(fmt: Formatters, meetupTitle: string, time: int): string
  {
    CalendarPrefix + "&text=" + fmt.quote(meetupTitle) + "&dates=" + fmt.stamp(time) + "/" + fmt.stamp(time + Hour)
  }

  /** The date phrase: "This ..." when the event is at most seven whole
      days away (past events included), "Next Week ..." otherwise. */
  function DateText(fmt: Formatters, time: int, now: int): (r: string)
    ensures |r| >= 5 && (r[..5] == "This " <==> DaysDiff(time, now) <= 7)
  {
    var rest := fmt.dayName(time) + ", " + fmt.dayMonth(time) + " - " + fmt.clock(time);
    if DaysDiff(time, now) <= 7 then "This " + rest
    else
      var r := "Next Week " + rest;
      assert r[..5] == "Next ";
      r
  }

  /** The heading line: the title, labelled with the capitalised search
      term when there is one, linked to the event's URL. */
  function Heading(fmt: Formatters, e: Event, title: string): string
  {
    var display := if e.searchTerm != "" then "[" + fmt.capitalize(e.searchTerm) + "] " + title else title;
    "# [" + display + "](" + Str(fmt.render, e.url) + ")\n"
  }

  /** The second line, the group and the date phrase in bold and the
      online marker, followed by an empty line. */
  function DateLine(fmt: Formatters, e: Event, now: int): string
  {
    var online := if e.mode == Online then OnlineText else "";
    "**" + Str(fmt.render, e.group) + "** | **" + DateText(fmt, e.time, now) + "**" + online + "\n" + "\n"
  }

  /** The posted text. */
  function MessageText(fmt: Formatters, e: Event, title: string, now: int): string
  {
    Heading(fmt, e, title) + DateLine(fmt, e, now)
  }

  /** The heading, with and without the search-term label. */
  lemma HeadingText(fmt: Formatters, e: Event, title: string)
    ensures e.searchTerm != "" ==>
      Heading(fmt, e, title) == "# [[" + fmt.capitalize(e.searchTerm) + "] " + title + "](" + Str(fmt.render, e.url) + ")\n"
    ensures e.searchTerm == "" ==>
      Heading(fmt, e, title) == "# [" + title + "](" + Str(fmt.render, e.url) + ")\n"
  {
  }

  /** The date line ends with the online marker for an online event and
      with the closing bold marker otherwise. */
  lemma DateLineEnd(fmt: Formatters, e: Event, now: int)
    ensures e.mode == Online ==> EndsWith(DateLine(fmt, e, now), OnlineText + "\n\n")
    ensures EndsWith(DateLine(fmt, e, now), "**\n\n") <==> e.mode == Offline
  {
    var d := DateLine(fmt, e, now);
    var g := "**" + Str(fmt.render, e.group) + "** | **" + DateText(fmt, e.time, now);
    if e.mode == Online {
      var t := OnlineText + "\n\n";
      assert d == (g + "**") + t;
      AppendEnds(g + "**", t);
      EndsWithWithin(d, t, "**\n\n");
      assert t[|t| - 4] == 'n';
    } else {
      assert d == g + "**\n\n";
      AppendEnds(g, "**\n\n");
    }
  }

  /** The message opens with the linked title, labelled exactly when the
      event has a search term; it closes with the group and the date
      phrase, and its last bold run ends the text exactly when the event
      is not online. */
  lemma MessageLayout(fmt: Formatters, e: Event, title: string, now: int)
    ensures var m := MessageText(fmt, e, title, now);
      e.searchTerm != "" ==> "# [[" + fmt.capitalize(e.searchTerm) + "] " + title + "](" + Str(fmt.render, e.url) + ")\n" <= m
    ensures var m := MessageText(fmt, e, title, now);
      e.searchTerm == "" ==> "# [" + title + "](" + Str(fmt.render, e.url) + ")\n" <= m
    ensures EndsWith(MessageText(fmt, e, title, now), DateLine(fmt, e, now))
    ensures DateLine(fmt, e, now) ==
      "**" + Str(fmt.render, e.group) + "** | **" + DateText(fmt, e.time, now) + "**"
      + (if e.mode == Online then OnlineText else "") + "\n\n"
    ensures e.mode == Online ==> EndsWith(MessageText(fmt, e, title, now), OnlineText + "\n\n")
    ensures EndsWith(MessageText(fmt, e, title, now), "**\n\n") <==> e.mode == Offline
  {
    var h, d := Heading(fmt, e, title), DateLine(fmt, e, now);
    var m := h + d;
    AppendEnds(h, d);
    HeadingText(fmt, e, title);
    DateLineEnd(fmt, e, now);
    if e.mode == Online {
      EndsWithTrans(m, d, OnlineText + "\n\n");
    }
    EndsWithWithin(m, d, "**\n\n");
  }

  /** `format_event_message`; absent where the source raises: `TypeError`
      for a title or description that is not a string (`re.sub`) or a
      non-blank location that is not a string (`urllib.parse.quote`), and
      `KeyError` for a dictionary location without a `name`. */
  function FormatEvent(fmt: Formatters, now: int, e: Event): (r: Option<Formatted>)
    ensures r.None? <==>
      || !e.title.JStr? || !e.description.JStr?
      || LocationText(e.location).None?
      || (HasLocation(fmt.render, LocationText(e.location).value) && !LocationText(e.location).value.JStr?)
    ensures r.Some? ==>
      && r.value.message == MessageText(fmt, e, CleanTitle(fmt.alnum, e.title.s), now)
      && r.value.data.start == e.time
      && r.value.data.end == r.value.data.start + Hour
      && r.value.data.name == "[Meetup] " + CleanTitle(fmt.alnum, e.title.s)
      && r.value.data.description == CleanDescription(e.description.s)
      && r.value.data.url == e.url
    ensures r.Some? ==>
      && LocationText(e.location).Some?
      && (r.value.data.location.None? <==> !HasLocation(fmt.render, LocationText(e.location).value))
      && (r.value.data.location.Some? ==> r.value.data.location.value == LocationText(e.location).value)
    ensures r.Some? ==>
      var f := r.value;
      var base := CalendarBase(fmt, f.data.name, e.time);
      && (f.data.location.None? ==> f.calendarUrl == base && f.locationUrl.None?)
      && (f.data.location.Some? ==>
            && f.data.location.value.JStr?
            && f.calendarUrl == base + "&location=" + fmt.quote(f.data.location.value.s)
            && f.locationUrl == Some(MapsPrefix + fmt.quote(f.data.location.value.s)))
  {
    if !e.title.JStr? || !e.description.JStr? then None
    else
      var title := CleanTitle(fmt.alnum, e.title.s);
      var meetupTitle := "[Meetup] " + title;
      var description := CleanDescription(e.description.s);
      var base := CalendarBase(fmt, meetupTitle, e.time);
      match LocationText(e.location)
      case None => None
      case Some(text) =>
        if HasLocation(fmt.render, text) then
          if !text.JStr? then None
          else
            Some(Formatted(
              MessageText(fmt, e, title, now),
              EventData(meetupTitle, e.time, e.time + Hour, Some(text), description, e.url),
              base + "&location=" + fmt.quote(text.s),
              Some(MapsPrefix + fmt.quote(text.s))))
        else
          Some(Formatted(
            MessageText(fmt, e, title, now),
            EventData(meetupTitle, e.time, e.time + Hour, None, description, e.url),
            base,
            None))
  }

  /** What the model needs of `str()` beyond the scalars: Python prints a
      number, a list or a dictionary starting with a non-blank character. */
  ghost predicate RenderSound(render: Json -> string)
  {
    forall j :: render(j) != [] && !IsSpace(render(j)[0])
  }

  /** Under a sound `str()`, a truthy location value that is not a string
      always reaches `urllib.parse.quote`, which raises. */
  lemma NonStringLocationRaises(fmt: Formatters, now: int, e: Event)
    requires RenderSound(fmt.render)
    requires LocationText(e.location).Some?
    requires var v := LocationText(e.location).value; Truthy(v) && !v.JStr?
    ensures FormatEvent(fmt, now, e).None?
  {
    var v := LocationText(e.location).value;
    var t := Str(fmt.render, v);
    assert t != [] && !IsSpace(t[0]);
    StripEmptyIffBlank(t);
  }

  /** A string location is blank exactly when it is whitespace only. */
  lemma StringLocationBlank(fmt: Formatters, s: string)
    ensures !HasLocation(fmt.render, JStr(s)) <==> forall i :: 0 <= i < |s| ==> IsSpace(s[i])
  {
    StripEmptyIffBlank(s);
  }

  /** The event's name on the platform is the cleaned title behind the
      `[Meetup] ` label, so it holds only title characters after the
      label. */
  lemma PayloadNameClean(fmt: Formatters, now: int, e: Event)
    requires AlnumSound(fmt.alnum)
    requires FormatEvent(fmt, now, e).Some?
    ensures var n := FormatEvent(fmt, now, e).value.data.name;
      && |n| >= 9 && n[..9] == "[Meetup] "
      && Collapsed(n[9..])
      && forall i :: 9 <= i < |n| ==> TitleChar(fmt.alnum, n[i])
  {
    var t := CleanTitle(fmt.alnum, e.title.s);
    CleanTitleShape(fmt.alnum, e.title.s);
    AppendParts("[Meetup] ", t);
  }
}
