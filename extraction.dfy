/** `get_meetup_events` without the HTTP fetch and the HTML parse: the
    location token of the search URL, the flattening of the JSON-LD
    blocks of a page, and the mapping of each decoded item to an event
    record. The ISO-8601 parse (`datetime.fromisoformat` followed by
    `astimezone()`) is the parameter `parse`, which yields an instant in
    integer seconds or fails; `str()` of lists, objects and numbers is
    the parameter `render`. */
module Extraction {
  import opened Json
  import opened Text

  datatype Mode = Online | Offline

  /** The `location` value of an event record: either the bare `name`
      value of the listing (or `''`), or the dictionary
      `{'name': ..., 'geo': ...}` the extractor builds. */
  datatype Location = Plain(value: Json) | Place(name: Json, geo: Option<Json>)

  /** The event dictionary built for each listing. The fields copied from
      the listing stay JSON values: the source does not check their
      types. */
  datatype Event = Event(
    title: Json,
    url: Json,
    time: int,
    location: Location,
    group: Json,
    description: Json,
    searchTerm: string,
    mode: Mode)

  const OnlineMode := "https://schema.org/OnlineEventAttendanceMode"
  const FallbackCity := "us--co--Denver"
  const LocationTbd := "Location TBD"
  const UnknownGroup := "Unknown Group"

  // ---------------------------------------------------------------------
  // The location token of the search URL.

  /** `'City, ST'` becomes `us--st--City` (spaces in the city become `-`,
      the state is lower-cased); anything that does not split into exactly
      two comma-separated parts falls back to Denver. */
  function LocationToken(lower: string -> string, location: string): string
  {
    var parts := SplitOn(location, ',');
    if |parts| == 2 then
      "us--" + lower(Strip(parts[1])) + "--" + Replace(Strip(parts[0]), ' ', "-")
    else FallbackCity
  }

  lemma LocationTokenCases(lower: string -> string, location: string)
    ensures Count(location, ',') != 1 ==> LocationToken(lower, location) == FallbackCity
    ensures Count(location, ',') == 1 ==>
      exists city, state ::
        && location == city + "," + state
        && ',' !in city && ',' !in state
        && LocationToken(lower, location) == "us--" + lower(Strip(state)) + "--" + Replace(Strip(city), ' ', "-")
        && ' ' !in Replace(Strip(city), ' ', "-")
  {
    SplitOnJoin(location, ',');
    var parts := SplitOn(location, ',');
    if |parts| == 2 {
      var city, state := parts[0], parts[1];
      assert Join(parts[1..], ",") == state;
      assert location == city + "," + state;
      assert ',' !in city && ',' !in state;
      assert LocationToken(lower, location) == "us--" + lower(Strip(state)) + "--" + Replace(Strip(city), ' ', "-");
    }
  }

  // ---------------------------------------------------------------------
  // JSON-LD blocks.

  /** One `<script type="application/ld+json">` tag: its `string` (absent
      when the tag has no single text child) and what `json.loads` makes of
      that text (absent on a decoding error). */
  datatype Block = Block(text: Option<string>, decoded: Option<Json>)

  /** The items a block contributes: nothing for a missing or blank text or
      an undecodable one, the elements of a list, and the value itself
      otherwise. */
  function BlockItems(b: Block): (items: seq<Json>)
    ensures b.text.None? || Strip(b.text.value) == "" || b.decoded.None? ==> items == []
    ensures b.text.Some? && Strip(b.text.value) != "" && b.decoded.Some? ==>
      items == if b.decoded.value.JArr? then b.decoded.value.items else [b.decoded.value]
  {
    if b.text.Some? && Strip(b.text.value) != "" then
      match b.decoded
      case None => []
      case Some(j) => if j.JArr? then j.items else [j]
    else []
  }

  /** `all_event_data` after the loop over blocks. */
  function AllItems(bs: seq<Block>): seq<Json>
  {
    if bs == [] then [] else BlockItems(bs[0]) + AllItems(bs[1..])
  }

  /** Blocks contribute their items in order, independently of each other. */
  lemma {:induction false} AllItemsAppend(a: seq<Block>, b: seq<Block>)
    ensures AllItems(a + b) == AllItems(a) + AllItems(b)
  {
    if a == [] {
      assert a + b == b;
    } else {
      assert (a + b)[0] == a[0];
      assert (a + b)[1..] == a[1..] + b;
      AllItemsAppend(a[1..], b);
    }
  }

  lemma AllItemsSnoc(bs: seq<Block>, i: nat)
    requires i < |bs|
    ensures AllItems(bs[..i + 1]) == AllItems(bs[..i]) + BlockItems(bs[i])
  {
    assert bs[..i + 1] == bs[..i] + [bs[i]];
    AllItemsAppend(bs[..i], [bs[i]]);
    assert AllItems([bs[i]]) == BlockItems(bs[i]) + AllItems([]);
  }

  /** The loop at the top of the JSON-LD handling. */
  method FlattenBlocks(bs: seq<Block>) returns (items: seq<Json>)
    ensures items == AllItems(bs)
  {
    items := [];
    var i := 0;
    assert bs[..0] == [];
    while i < |bs|
      invariant 0 <= i <= |bs|
      invariant items == AllItems(bs[..i])
    {
      var b := bs[i];
      ghost var before := items;
      if b.text.Some? && Strip(b.text.value) != "" && b.decoded.Some? {
        var data := b.decoded.value;
        if data.JArr? {
          items := items + data.items;
        } else {
          items := items + [data];
        }
      }
      assert items == before + BlockItems(b);
      AllItemsSnoc(bs, i);
      assert items == AllItems(bs[..i + 1]);
      i := i + 1;
    }
    assert bs[..i] == bs;
  }

  // ---------------------------------------------------------------------
  // One item to one event.

  /** `eventAttendanceMode` is online exactly for the schema.org online
      value. */
  function ModeOf(j: Json): (m: Mode)
    ensures m == Online <==> j == JStr(OnlineMode)
  {
    if j == JStr(OnlineMode) then Online else Offline
  }

  /** The group name: the organizer's `name` when the organizer is an
      object, `'Unknown Group'` otherwise. */
  function GroupOf(organizer: Json): (g: Json)
    ensures !organizer.JObj? ==> g == JStr(UnknownGroup)
    ensures organizer.JObj? && "name" !in organizer.fields ==> g == JStr(UnknownGroup)
    ensures organizer.JObj? && "name" in organizer.fields ==> g == organizer.fields["name"]
  {
    if organizer.JObj? then Get(organizer.fields, "name", JStr(UnknownGroup)) else JStr(UnknownGroup)
  }

  /** Python truthiness of the `location` value. */
  predicate LocationTruthy(l: Location)
  {
    match l
    case Plain(v) => Truthy(v)
    case Place(_, _) => true
  }

  /** `', '.join(filter(None, parts))`; absent when a truthy part is not a
      string (the join raises). */
  function JoinTruthy(parts: seq<Json>): (r: Option<string>)
    ensures r.None? <==> JoinRaises(parts)
  {
    var kept := KeepTruthy(parts);
    if forall k :: 0 <= k < |kept| ==> kept[k].JStr? then
      Some(Join(Texts(kept), ", "))
    else None
  }

  /** Some part survives `filter(None, ...)` without being a string. */
  predicate JoinRaises(parts: seq<Json>)
  {
    exists k :: 0 <= k < |parts| && Truthy(parts[k]) && !parts[k].JStr?
  }

  /** `filter(None, parts)`: the truthy parts, in order. */
  function KeepTruthy(parts: seq<Json>): (kept: seq<Json>)
    ensures forall k :: 0 <= k < |kept| ==> Truthy(kept[k])
    ensures forall x :: x in kept <==> x in parts && Truthy(x)
  {
    if parts == [] then []
    else (if Truthy(parts[0]) then [parts[0]] else []) + KeepTruthy(parts[1..])
  }

  function Texts(js: seq<Json>): (ss: seq<string>)
    requires forall k :: 0 <= k < |js| ==> js[k].JStr?
    ensures |ss| == |js|
    ensures forall k :: 0 <= k < |js| ==> ss[k] == js[k].s
  {
    if js == [] then [] else [js[0].s] + Texts(js[1..])
  }

  /** The non-empty strings among `parts`, in order. */
  function StringTexts(parts: seq<Json>): seq<string>
  {
    if parts == [] then []
    else (if parts[0].JStr? && parts[0].s != "" then [parts[0].s] else []) + StringTexts(parts[1..])
  }

  /** The three parts of an address object, each `''` when missing. */
  function AddressParts(a: map<string, Json>): seq<Json>
  {
    [Get(a, "streetAddress", JStr("")), Get(a, "addressLocality", JStr("")), Get(a, "addressRegion", JStr(""))]
  }

  /** `latitude and longitude` of a `geo` object. */
  predicate HasCoordinates(geo: Json)
  {
    geo.JObj? && Truthy(Get(geo.fields, "latitude", JNull)) && Truthy(Get(geo.fields, "longitude", JNull))
  }

  /** The location of a listing, from its `location` value: absent when
      the address join raises. */
  function ResolveLocation(render: Json -> string, ld: Json): (r: Option<Location>)
    // not an object: its `str()`, with no coordinates
    ensures !ld.JObj? ==> r == Some(Place(JStr(Str(render, ld)), None))
    // truthy latitude and longitude: both kept, under the name or 'Location TBD'
    ensures ld.JObj? ==>
      var name := Get(ld.fields, "name", JStr(""));
      var geo := Get(ld.fields, "geo", JObj(map[]));
      HasCoordinates(geo) ==>
        r == Some(Place(if Truthy(name) then name else JStr(LocationTbd),
                        Some(JObj(map["latitude" := geo.fields["latitude"], "longitude" := geo.fields["longitude"]]))))
    // a truthy name and no usable coordinates: the bare name
    ensures ld.JObj? ==>
      var name := Get(ld.fields, "name", JStr(""));
      Truthy(name) && !HasCoordinates(Get(ld.fields, "geo", JObj(map[]))) ==> r == Some(Plain(name))
    // a falsy name, no usable coordinates and no address object: the bare name still
    ensures ld.JObj? ==>
      var name := Get(ld.fields, "name", JStr(""));
      && !Truthy(name) && !HasCoordinates(Get(ld.fields, "geo", JObj(map[])))
      && !("address" in ld.fields && ld.fields["address"].JObj?)
      ==> r == Some(Plain(name))
    // only the address join can fail, and it fails exactly on a truthy part that is not a string
    ensures r.None? <==>
      && ld.JObj?
      && !Truthy(Get(ld.fields, "name", JStr(""))) && !HasCoordinates(Get(ld.fields, "geo", JObj(map[])))
      && "address" in ld.fields && ld.fields["address"].JObj?
      && JoinRaises(AddressParts(ld.fields["address"].fields))
  {
    match ld
    case JObj(m) =>
      var name := Get(m, "name", JStr(""));
      var geo := Get(m, "geo", JObj(map[]));
      var loc :=
        if HasCoordinates(geo) then
          Place(if Truthy(name) then name else JStr(LocationTbd),
                Some(JObj(map["latitude" := geo.fields["latitude"], "longitude" := geo.fields["longitude"]])))
        else Plain(name);
      if !LocationTruthy(loc) && "address" in m && m["address"].JObj? then
        var a := m["address"].fields;
        match JoinTruthy(AddressParts(a))
        case None => None
        case Some(text) => Some(Place(JStr(text), if geo.JObj? then Some(geo) else None))
      else Some(loc)
    case _ => Some(Place(JStr(Str(render, ld)), None))
  }

  /** Without usable coordinates, a falsy name and an address object whose
      truthy parts are strings give the non-empty string parts joined with
      `", "`; a `null` or other falsy part is dropped. */
  lemma AddressLocation(render: Json -> string, m: map<string, Json>)
    requires !Truthy(Get(m, "name", JStr("")))
    requires !HasCoordinates(Get(m, "geo", JObj(map[])))
    requires "address" in m && m["address"].JObj?
    requires !JoinRaises(AddressParts(m["address"].fields))
    ensures var geo := Get(m, "geo", JObj(map[]));
      ResolveLocation(render, JObj(m)) ==
        Some(Place(JStr(Join(StringTexts(AddressParts(m["address"].fields)), ", ")), if geo.JObj? then Some(geo) else None))
  {
    KeepTruthyStrings(AddressParts(m["address"].fields));
  }

  /** When every truthy part is a string, reading the texts of the kept
      parts gives the non-empty strings. */
  lemma {:induction false} KeepTruthyStrings(parts: seq<Json>)
    requires !JoinRaises(parts)
    ensures forall k :: 0 <= k < |KeepTruthy(parts)| ==> KeepTruthy(parts)[k].JStr?
    ensures Texts(KeepTruthy(parts)) == StringTexts(parts)
  {
    if parts != [] {
      var tail := parts[1..];
      forall k | 0 <= k < |tail| ensures Truthy(tail[k]) ==> tail[k].JStr? {
        assert tail[k] == parts[k + 1];
      }
      KeepTruthyStrings(tail);
      var rest := KeepTruthy(tail);
      if Truthy(parts[0]) {
        assert parts[0].JStr?;
        assert KeepTruthy(parts) == [parts[0]] + rest;
        assert Texts([parts[0]] + rest) == [parts[0].s] + Texts(rest);
      } else {
        assert KeepTruthy(parts) == rest;
      }
    }
  }

  /** The body of the per-item `try`: absent when the item is skipped. */
  function ExtractEvent(parse: string -> Option<int>, render: Json -> string, searchTerm: string, item: Json): (r: Option<Event>)
    ensures r.None? <==>
      || !item.JObj?
      || var start := Get(item.fields, "startDate", JStr(""));
         || !Truthy(start) || !start.JStr?
         || parse(Replace(start.s, 'Z', "+00:00")).None?
         || ResolveLocation(render, Get(item.fields, "location", JObj(map[]))).None?
    ensures r.Some? ==>
      && item.JObj?
      && var start := Get(item.fields, "startDate", JStr(""));
      && Truthy(start) && start.JStr?
      && parse(Replace(start.s, 'Z', "+00:00")) == Some(r.value.time)
      && r.value.title == Get(item.fields, "name", JStr(""))
      && r.value.url == Get(item.fields, "url", JStr(""))
      && r.value.description == Get(item.fields, "description", JStr(""))
      && r.value.group == GroupOf(Get(item.fields, "organizer", JObj(map[])))
      && r.value.mode == ModeOf(Get(item.fields, "eventAttendanceMode", JNull))
      && r.value.searchTerm == searchTerm
      && ResolveLocation(render, Get(item.fields, "location", JObj(map[]))) == Some(r.value.location)
  {
    if !item.JObj? then None
    else
      var f := item.fields;
      var start := Get(f, "startDate", JStr(""));
      if !Truthy(start) || !start.JStr? then None
      else
        match parse(Replace(start.s, 'Z', "+00:00"))
        case None => None
        case Some(t) =>
          match ResolveLocation(render, Get(f, "location", JObj(map[])))
          case None => None
          case Some(loc) =>
            Some(Event(
              Get(f, "name", JStr("")),
              Get(f, "url", JStr("")),
              t,
              loc,
              GroupOf(Get(f, "organizer", JObj(map[]))),
              Get(f, "description", JStr("")),
              searchTerm,
              ModeOf(Get(f, "eventAttendanceMode", JNull))))
  }

  function Opt(o: Option<Event>): seq<Event>
  {
    if o.Some? then [o.value] else []
  }

  /** `events` after the loop over the items. */
  function ExtractAll(parse: string -> Option<int>, render: Json -> string, searchTerm: string, items: seq<Json>): seq<Event>
  {
    if items == [] then []
    else ExtractAll(parse, render, searchTerm, items[..|items| - 1]) + Opt(ExtractEvent(parse, render, searchTerm, items[|items| - 1]))
  }

  /** Every extracted event comes from an item, carries the search term, and
      there are no more events than items. */
  lemma {:induction false} ExtractAllSound(parse: string -> Option<int>, render: Json -> string, searchTerm: string, items: seq<Json>)
    ensures |ExtractAll(parse, render, searchTerm, items)| <= |items|
    ensures forall e :: e in ExtractAll(parse, render, searchTerm, items) ==>
      e.searchTerm == searchTerm && exists i :: 0 <= i < |items| && ExtractEvent(parse, render, searchTerm, items[i]) == Some(e)
  {
    if items != [] {
      var n := |items| - 1;
      ExtractAllSound(parse, render, searchTerm, items[..n]);
      forall e | e in ExtractAll(parse, render, searchTerm, items)
        ensures e.searchTerm == searchTerm && exists i :: 0 <= i < |items| && ExtractEvent(parse, render, searchTerm, items[i]) == Some(e)
      {
        if e in ExtractAll(parse, render, searchTerm, items[..n]) {
          var i :| 0 <= i < n && ExtractEvent(parse, render, searchTerm, items[..n][i]) == Some(e);
          assert items[..n][i] == items[i];
        } else {
          assert ExtractEvent(parse, render, searchTerm, items[n]) == Some(e);
        }
      }
    }
  }

  /** The loop over `all_event_data`. */
  method ExtractEvents(parse: string -> Option<int>, render: Json -> string, searchTerm: string, items: seq<Json>)
    returns (events: seq<Event>)
    ensures events == ExtractAll(parse, render, searchTerm, items)
  {
    events := [];
    var i := 0;
    while i < |items|
      invariant 0 <= i <= |items|
      invariant events == ExtractAll(parse, render, searchTerm, items[..i])
    {
      var e := ExtractEvent(parse, render, searchTerm, items[i]);
      if e.Some? {
        events := events + [e.value];
      }
      assert items[..i + 1][..i] == items[..i];
      i := i + 1;
    }
    assert items[..i] == items;
  }

  /** `get_meetup_events` from the fetched page on: `page` is absent when
      the request failed, and then no event is returned. */
  method GetMeetupEvents(parse: string -> Option<int>, render: Json -> string, searchTerm: string, page: Option<seq<Block>>)
    returns (events: seq<Event>)
    ensures page.None? ==> events == []
    ensures page.Some? ==> events == ExtractAll(parse, render, searchTerm, AllItems(page.value))
  {
    events := [];
    if page.Some? {
      var items := FlattenBlocks(page.value);
      if items != [] {
        events := ExtractEvents(parse, render, searchTerm, items);
      }
    }
  }
}
