/** `CreateEventButton`: the view posted under each event, with its link
    buttons and the "Create Discord Event" button whose handler creates
    the external event. Every call into the platform is an input: whether
    it succeeded, was refused for lack of permission, or failed otherwise. */
module Button {
  import opened Json
  import opened Payload

  const CreateLabel := "Create Discord Event"
  const CreatedLabel := "Event Created!"
  const CalendarLabel := "Add to Google Calendar"
  const LocationLabel := "Check Location"
  const CreatedNotice := "\U{2705} Created Discord event: "
  const PermissionNotice := "\U{274C} I don't have permission to create events in this server. Please make sure I have the 'Manage Events' permission."
  const FailureNotice := "\U{274C} Failed to create Discord event. Please try again later."

  /** How one awaited platform call ended: normally, with
      `discord.errors.Forbidden`, or with any other exception. */
  datatype Outcome = Ok | Forbidden | Failed

  datatype LinkButton = LinkButton(caption: string, url: string)

  /** The arguments of `create_scheduled_event`. */
  datatype EventRequest = EventRequest(
    name: string,
    start: int,
    end: int,
    location: Option<Json>,
    description: Json)

  /** The request built from the stored payload: the description is the
      event's link when that is truthy and the empty string otherwise. */
  function RequestFor(d: EventData): (r: EventRequest)
    ensures r.name == d.name && r.start == d.start && r.end == d.end && r.location == d.location
    ensures Truthy(d.url) ==> r.description == d.url
    ensures !Truthy(d.url) ==> r.description == JStr("")
  {
    EventRequest(d.name, d.start, d.end, d.location, if Truthy(d.url) then d.url else JStr(""))
  }

  /** How the first call that did not end normally ended, or `Ok`. */
  function FirstFailure(steps: seq<Outcome>): (o: Outcome)
    ensures o == Ok <==> forall i :: 0 <= i < |steps| ==> steps[i] == Ok
    ensures o != Ok ==> exists i :: 0 <= i < |steps| && steps[i] == o && forall k :: 0 <= k < i ==> steps[k] == Ok
  {
    if steps == [] then Ok
    else if steps[0] != Ok then steps[0]
    else
      var o := FirstFailure(steps[1..]);
      assert o != Ok ==> exists i :: 0 <= i < |steps[1..]| && steps[1..][i] == o && forall k :: 0 <= k < i ==> steps[1..][k] == Ok;
      assert o != Ok ==> exists i :: 1 <= i < |steps| && steps[i] == o && forall k :: 1 <= k < i ==> steps[k] == Ok by {
        if o != Ok {
          var i :| 0 <= i < |steps[1..]| && steps[1..][i] == o && forall k :: 0 <= k < i ==> steps[1..][k] == Ok;
          assert steps[i + 1] == o;
          assert forall k :: 1 <= k < i + 1 ==> steps[k] == steps[1..][k - 1];
        }
      }
      o
  }

  /** The first call that did not end normally decides. */
  lemma FirstFailureAt(steps: seq<Outcome>, j: nat)
    requires j < |steps| && steps[j] != Ok
    requires forall k :: 0 <= k < j ==> steps[k] == Ok
    ensures FirstFailure(steps) == steps[j]
  {
    var o := FirstFailure(steps);
    var i :| 0 <= i < |steps| && steps[i] == o && forall k :: 0 <= k < i ==> steps[k] == Ok;
    assert !(i < j) && !(j < i);
  }

  /** The ephemeral reply the user gets: the success notice when every
      call ended normally, otherwise the notice of the handler that caught
      the first exception. */
  function Reply(steps: seq<Outcome>, createdName: string): (r: string)
    ensures FirstFailure(steps) == Ok ==> r == CreatedNotice + createdName
    ensures FirstFailure(steps) == Forbidden ==> r == PermissionNotice
    ensures FirstFailure(steps) == Failed ==> r == FailureNotice
  {
    match FirstFailure(steps)
    case Ok => CreatedNotice + createdName
    case Forbidden => PermissionNotice
    case Failed => FailureNotice
  }

  class CreateEventButton {
    const eventData: EventData
    const links: seq<LinkButton>
    var disabled: bool
    var caption: string

    /** The view: the calendar link always, the map link only for a
        non-empty location URL, and the enabled create button. */
    constructor(eventData: EventData, calendarUrl: string, locationUrl: Option<string>)
      ensures this.eventData == eventData
      ensures links == [LinkButton(CalendarLabel, calendarUrl)] +
        (if locationUrl.Some? && locationUrl.value != "" then [LinkButton(LocationLabel, locationUrl.value)] else [])
      ensures !disabled && caption == CreateLabel
    {
      this.eventData := eventData;
      var extra := if locationUrl.Some? && locationUrl.value != "" then [LinkButton(LocationLabel, locationUrl.value)] else [];
      links := [LinkButton(CalendarLabel, calendarUrl)] + extra;
      disabled := false;
      caption := CreateLabel;
    }

    /** The two states the button can be in. */
    predicate Valid()
      reads this
    {
      (!disabled && caption == CreateLabel) || Created()
    }

    predicate Created()
      reads this
    {
      disabled && caption == CreatedLabel
    }

    /** `create_event`: `deferred`, `created`, `edited` and `replied` are
        how `defer`, `create_scheduled_event`, `message.edit` and the
        success `followup.send` ended, and `createdName` is the name the
        platform gave the event. The button flips once the event exists,
        even when a later call fails; the request is sent only after a
        successful defer. */
    method CreateEvent(deferred: Outcome, created: Outcome, edited: Outcome, replied: Outcome, createdName: string)
      returns (request: Option<EventRequest>, reply: string)
      requires Valid()
      modifies this
      ensures Valid()
      ensures deferred == Ok && created == Ok ==> Created()
      ensures !(deferred == Ok && created == Ok) ==> disabled == old(disabled) && caption == old(caption)
      ensures request == (if deferred == Ok then Some(RequestFor(eventData)) else None)
      ensures reply == Reply([deferred, created, edited, replied], createdName)
    {
      ghost var steps := [deferred, created, edited, replied];
      request := None;
      if deferred != Ok {
        FirstFailureAt(steps, 0);
        reply := Caught(deferred);
        return;
      }
      var r := RequestFor(eventData);
      request := Some(r);
      if created != Ok {
        FirstFailureAt(steps, 1);
        reply := Caught(created);
        return;
      }
      disabled := true;
      caption := CreatedLabel;
      if edited != Ok {
        FirstFailureAt(steps, 2);
        reply := Caught(edited);
        return;
      }
      if replied != Ok {
        FirstFailureAt(steps, 3);
        reply := Caught(replied);
        return;
      }
      reply := CreatedNotice + createdName;
    }

    /** The two `except` clauses. */
    static function Caught(o: Outcome): (r: string)
      requires o != Ok
      ensures o == Forbidden ==> r == PermissionNotice
      ensures o == Failed ==> r == FailureNotice
    {
      if o == Forbidden then PermissionNotice else FailureNotice
    }
  }
}
