# Meetup alarm: a verified model of the listing pipeline

`meetup_alarm.py` is a chat bot. Once a week it searches a listings site
for gatherings matching configured search terms around configured cities.
It extracts events from the JSON-LD blocks of the result pages, keeps one
event per title and sorts them by start time. It buckets them into "this
week" and "next week" for the log, groups them by search term, and posts one
message per event. Each message carries a "Create Discord Event" button.
When a recipient presses the button, the handler creates a scheduled event
on the chat platform, then disables and relabels the button.

This project models, in Dafny, the deterministic core between the network
and the chat platform. It proves that core's properties. Its modules follow
the source's structure:

| module | file | models |
|---|---|---|
| `Json` | json.dfy | decoded JSON values, truthiness, `dict.get`, `str()` |
| `Text` | text.dfy | `str.isspace`, `strip`, `split()`, `split(c)`, `join`, `replace` |
| `Cleaning` | cleaning.dfy | the regular-expression passes over titles and descriptions |
| `Extraction` | extraction.dfy | `get_meetup_events` after the fetch: location token, JSON-LD flattening, item to event |
| `Payload` | payload.dfy | `format_event_message`: message, button payload, calendar and map links |
| `Ordering` | ordering.dfy | the dedup comprehension and `sorted(..., key=time)` |
| `Aggregation` | aggregation.dfy | `meetup_task`: collect, dedup, sort, bucket, group, post |
| `Schedule` | schedule.dfy | `days_ahead`, `next_post` and the rounds of `weekly_meetup_task` |
| `Button` | button.dfy | `CreateEventButton`: its links and the `create_event` transition |
| `Seqs` | seqs.dfy | generic sequence facts used by the proofs |

Instants are whole seconds of local wall-clock time. Several calls into
code the model cannot see become function-valued parameters:

- `datetime.fromisoformat`, `strftime` and `urllib.parse.quote`;
- `str.capitalize`, `str.lower` and `str.isalnum`;
- `str()` of numbers, lists and objects.

By the same token, the fetched page and every chat-platform call are
inputs. The loops of the source (`meetup_task`, `get_meetup_events`,
`weekly_meetup_task`) are methods with loop invariants. Each loop is proved
equal to a recursive specification function, and the properties are proved
about those functions. The button is a class whose `create_event` method
updates `disabled` and `caption` in place.

Where the system's design documentation and the code disagree, the model
follows the code:

- The documentation describes a durable action registry. The code has none:
  the button keeps its payload in memory.
- The documentation deduplicates by title and start time. The code
  deduplicates by title alone, and the last event wins.
- The documentation drops past events. The code has no future-only filter,
  so past events are handed to the posting loop; `PastEventsPosted` proves
  this.
- In the documentation a failed button action leaves the control unchanged.
  In the code the button flips as soon as the platform event exists, even
  when the message edit or the confirmation then fails.
- The documentation says a failed post is skipped and the cycle goes on.
  In the code a formatting error (`TypeError` for a non-string title or
  description, `KeyError` for a dictionary location without `name`; neither
  is an `HTTPException`) ends the cycle and escapes `weekly_meetup_task`,
  which has no handler and is started only once, so no later round runs.
- The documentation has a map link only for a non-"Online" location. The
  code adds one for any non-blank location text.

## Model

| member | source | states |
|---|---|---|
| Text.StripEmptyIffBlank | meetup_alarm.py:264 | `s.strip()` is empty exactly when every character of `s` is whitespace |
| Text.SplitJoin | meetup_alarm.py:377 | `split()` gives back the words that `' '.join` put together, for non-empty words without whitespace |
| Text.CollapseShape | meetup_alarm.py:377 | `' '.join(s.split())` has no whitespace at either end, no whitespace other than single plain spaces, and every other character comes from `s` |
| Text.CollapseIdempotent | meetup_alarm.py:377 | normalising whitespace twice equals normalising it once |
| Text.SplitOnJoin | meetup_alarm.py:236 | `s.split(c)` has one more piece than `s` has `c`s, no piece contains `c`, and joining the pieces with `c` gives `s` |
| Cleaning.LinkMatch | meetup_alarm.py:359 | a found match of `\[([^\]]+)\]\([^)]+\)` opens with `[`, has a non-empty label closed by `]`, continues with `(`, and has a non-empty target closed by `)` |
| Cleaning.LinkMatchSound | meetup_alarm.py:359 | the `]` that closes the found label is the first `]` after the `[`, and the `)` that closes the target is the first `)` after the `(` |
| Cleaning.LinkMatchComplete | meetup_alarm.py:359 | whenever the pattern matches at the start of the text, `LinkMatch` returns exactly that match, so a no-match result means the pattern does not match there |
| Cleaning.UrlMatch | meetup_alarm.py:362 | there is no match exactly when the text starts with neither `https://` nor `http://` followed by a non-whitespace character; a match runs from the scheme over non-whitespace characters up to the next whitespace or the end |
| Cleaning.SpanMatch | meetup_alarm.py:368-371 | a found match of `\[.*?\]` / `\(.*?\)` starts with the opener and ends at the first closer, with no newline inside |
| Cleaning.SpanMatchComplete | meetup_alarm.py:368-371 | whenever such a shortest span starts the text, `SpanMatch` returns its length, so a zero result means no match there |
| Cleaning.UnlinkWithin | meetup_alarm.py:359 | replacing a Markdown link by its label adds no new characters |
| Cleaning.UnurlWithin | meetup_alarm.py:362 | removing URLs adds no new characters |
| Cleaning.UnmarkKeeps | meetup_alarm.py:365 | after removing `*_~\``, none of them remains and every remaining character was there before |
| Cleaning.DropSpansWithin | meetup_alarm.py:368-371 | removing bracketed and parenthesised spans adds no new characters |
| Cleaning.KeepSafeKeeps | meetup_alarm.py:374 | after `[^\w\s\-.,!?]` is removed, only word characters, whitespace and `-.,!?` remain |
| Cleaning.UnlinkNoBracket | meetup_alarm.py:359 | text without `[` is left unchanged by the link pass |
| Cleaning.UnurlNoColon | meetup_alarm.py:362 | text without `:` is left unchanged by the URL pass |
| Cleaning.CleanTitleShape | meetup_alarm.py:359-377 | a cleaned title holds only letters/digits, single inner spaces and `-.,!?`; in particular no `_`, none of `[]()*~\`:/`, and no leading, trailing or double space |
| Cleaning.CleanTitleIdempotent | meetup_alarm.py:359-377 | cleaning a cleaned title changes nothing |
| Cleaning.CleanDescriptionShape | meetup_alarm.py:389-398 | the cleaned description is at most 200 characters: the normalised text if it fits, else its first 197 characters and `...`; it holds no `*_~\`` and does not start with whitespace |
| Extraction.LocationTokenCases | meetup_alarm.py:235-242 | `"City, ST"` with exactly one comma becomes `us--<lower(strip(ST))>--<strip(City) with spaces as ->`; any other comma count falls back to `us--co--Denver` |
| Extraction.BlockItems | meetup_alarm.py:264-270 | a blank, missing or undecodable block adds nothing; a list adds its elements; any other value adds itself |
| Extraction.AllItemsAppend | meetup_alarm.py:262-273 | blocks contribute their items in order, independently of each other |
| Extraction.FlattenBlocks | meetup_alarm.py:262-273 | the loop over script blocks builds exactly the concatenation of the blocks' items |
| Extraction.ModeOf | meetup_alarm.py:327-331 | the attendance mode is online exactly when the value is the schema.org online URL |
| Extraction.GroupOf | meetup_alarm.py:322-326 | the group is the organizer's `name` when the organizer is an object that has one, else `Unknown Group` |
| Extraction.ResolveLocation | meetup_alarm.py:294-321 | a non-object gives its `str()` without coordinates; truthy latitude and longitude give the name (or `Location TBD`) with both; without coordinates a truthy name is kept bare, and so is a falsy name when there is no address object; the result is absent exactly when the address join is reached and a truthy part is not a string |
| Extraction.JoinTruthy | meetup_alarm.py:313-317 | `', '.join(filter(None, parts))` raises exactly when some truthy part is not a string |
| Extraction.KeepTruthy | meetup_alarm.py:313-317 | `filter(None, parts)` keeps exactly the truthy parts |
| Extraction.AddressLocation | meetup_alarm.py:309-319 | with a falsy name and no coordinates, an address object whose truthy parts are strings gives its non-empty string parts joined by `", "`; `null` and other falsy parts are dropped |
| Extraction.KeepTruthyStrings | meetup_alarm.py:313-317 | when every truthy part is a string, the kept parts are strings and their texts are the non-empty strings among the parts |
| Extraction.ExtractEvent | meetup_alarm.py:281-345 | an item is skipped exactly when it is not an object, its `startDate` is missing, empty or not a string, the date does not parse, or the address join raises; otherwise every field of the event comes from the item as the source reads it |
| Extraction.ExtractAllSound | meetup_alarm.py:281-342 | every extracted event comes from an item and carries the search term, and there are no more events than items |
| Extraction.ExtractEvents | meetup_alarm.py:281-345 | the item loop appends exactly the events of the non-skipped items, in order |
| Extraction.GetMeetupEvents | meetup_alarm.py:251-281 | a failed fetch gives no events; otherwise the events are those extracted from the flattened items of the page |
| Payload.DaysDiff | meetup_alarm.py:189 | `timedelta.days` rounds down: the whole days `d` satisfy `d*86400 <= time-now < (d+1)*86400` |
| Payload.DateText | meetup_alarm.py:424-436 | the date phrase starts with `This ` exactly when the event is at most seven whole days away |
| Payload.LocationText | meetup_alarm.py:401-402 | the name of an extractor-built location, the value of a bare one, and for a bare dictionary its `name`, failing (`KeyError`) when there is none |
| Payload.FormatEvent | meetup_alarm.py:353-465 | fails exactly for a non-string title or description, a dictionary location without `name`, or a non-blank non-string location text; the message is the layout of `MessageText` over the cleaned title; the payload ends one hour after it starts and is named `[Meetup] ` + cleaned title; its location is absent exactly when the location text is blank; the `&location=` parameter and the map link are present exactly when it is not |
| Payload.NonStringLocationRaises | meetup_alarm.py:417-418 | when `str()` never prints a number, list or dictionary blank, a truthy non-string location text always makes formatting fail |
| Payload.HeadingText | meetup_alarm.py:380-385 | the heading is `# [` + the title linked to the URL, with the `[<capitalised term>] ` label exactly when the search term is non-empty |
| Payload.DateLineEnd | meetup_alarm.py:444-450 | the second line ends with the online marker for an online event, and with the closing bold marker exactly when the event is not online |
| Payload.MessageLayout | meetup_alarm.py:380-450 | the message starts with the (labelled) linked title and ends with the bold group, the bold date phrase and the online marker; it ends in a bold run exactly when the event is not online |
| Payload.StringLocationBlank | meetup_alarm.py:417 | a string location is blank exactly when it is all whitespace |
| Payload.PayloadNameClean | meetup_alarm.py:386 | after the `[Meetup] ` label, the payload name is a collapsed run of title characters |
| Ordering.DedupDistinct | meetup_alarm.py:176 | no two kept events share a title, and there are no more kept events than input events |
| Ordering.DedupCovers | meetup_alarm.py:176 | every title of the input is kept |
| Ordering.DedupLastWins | meetup_alarm.py:176 | each kept event is the last input event with its title |
| Ordering.DedupFirstAppearance | meetup_alarm.py:176 | kept events are in the order their titles first appear in the input (dictionary insertion order) |
| Ordering.SortByPerm | meetup_alarm.py:180 | the sort is a permutation of its input |
| Ordering.SortBySorted | meetup_alarm.py:180 | the sort is non-decreasing in the key |
| Ordering.SortByStable | meetup_alarm.py:180 | elements with equal keys keep their input order |
| Ordering.SortByTimeSpec | meetup_alarm.py:180 | the sorted events are chronological, a permutation of the deduplicated ones, and events at the same instant keep their order |
| Aggregation.ConcatMember | meetup_alarm.py:164 | an event is in the extended list exactly when one of the extended parts holds it |
| Aggregation.QueryLocation | meetup_alarm.py:162-165 | the inner loop extends the list with each search term's results, in order |
| Aggregation.CollectEvents | meetup_alarm.py:158-169 | both loops build the concatenation of every location's results |
| Aggregation.CollectedFrom | meetup_alarm.py:158-169 | an event is collected exactly when some configured query of some location returned it |
| Aggregation.CollectedTerms | meetup_alarm.py:158-169 | every collected event is labelled with a configured search term |
| Aggregation.InWindowMembers | meetup_alarm.py:187-194 | an event is in a bucket exactly when it is sorted and its whole-day distance lies in the bucket's range (`[0,7]`, `[8,14]`) |
| Aggregation.InWindowSubseq | meetup_alarm.py:187-194 | each bucket is a subsequence of the sorted list |
| Aggregation.InWindowChrono | meetup_alarm.py:187-194 | a bucket of a chronological list is chronological |
| Aggregation.WeeksDisjoint | meetup_alarm.py:191-194 | no event is in both buckets |
| Aggregation.Buckets | meetup_alarm.py:184-194 | the loop fills `this_week` and `next_week` with exactly the events of each range, in sorted order |
| Aggregation.SelectTermMembers | meetup_alarm.py:209-214 | a group holds exactly the sorted events with that search term |
| Aggregation.SelectTermChrono | meetup_alarm.py:209-214 | a group of a chronological list is chronological |
| Aggregation.SelectTermSubseq | meetup_alarm.py:209-214 | a group is a subsequence of the sorted list |
| Aggregation.TermsSpec | meetup_alarm.py:209-214 | dictionary keys are distinct and are exactly the search terms with a non-empty group |
| Aggregation.TermsFirstAppearance | meetup_alarm.py:209-214 | the keys come in the order their search terms first appear |
| Aggregation.GroupsPermutation | meetup_alarm.py:209-218 | concatenating the groups of distinct terms covering every event gives a permutation of the events |
| Aggregation.PostingOrder | meetup_alarm.py:209-218 | posting group by group covers each sorted event exactly once, and every group is chronological |
| Aggregation.GroupBySearchTerm | meetup_alarm.py:209-214 | the loop builds a dictionary whose key order is the first-appearance order and whose value for each key is that key's group |
| Aggregation.FormatRun | meetup_alarm.py:217-227 | messages are formatted in order up to the first event that makes formatting raise; the run crashes exactly when one does |
| Aggregation.FormatRunCrashed | meetup_alarm.py:217-227 | nothing after the first formatting failure is formatted |
| Aggregation.FlattenGroups | meetup_alarm.py:209-218 | walking the dictionary's groups in key order gives the groups of the sorted list |
| Aggregation.PostGroup | meetup_alarm.py:218-227 | the inner posting loop continues the formatting run over one group |
| Aggregation.PostGroups | meetup_alarm.py:217-227 | the outer posting loop formats the groups' events one group after the other and stops at the first failure |
| Aggregation.MeetupTask | meetup_alarm.py:151-227 | no channel, no events and a failed header each end the cycle, exactly in the source's cases; the buckets are the two ranges of the sorted events; the posts are the formatting run over the groups of the sorted events |
| Aggregation.EveryEventPostedOnce | meetup_alarm.py:176-218 | the events handed to the posting loop are a permutation of the deduplicated events, with distinct titles, each group chronological; by `FormatRun` all of them are posted unless a formatting failure stops the run |
| Aggregation.PastEventsPosted | meetup_alarm.py:187-218 | an event already in the past is in neither bucket and is still handed to the posting loop |
| Schedule.DayNumber | meetup_alarm.py:142 | a name is recognised exactly when it is one of `MONDAY` … `SUNDAY`, and it gives its position in that list (`calendar.MONDAY` is 0) |
| Schedule.SlotOf | meetup_alarm.py:141-142 | the posting slot exists exactly when the day name is recognised and the time is a valid hour and minute, and then it carries that day's number, hour and minute |
| Schedule.DaysAhead | meetup_alarm.py:142-144 | `days_ahead` is in `[0, 7]`, lands on the posting weekday, and is 7 exactly when today is that weekday and the posting time has passed |
| Schedule.NextPostSlot | meetup_alarm.py:145 | `next_post` is at the posting weekday and time, not before now and less than a week away |
| Schedule.SlotsWeeksApart | meetup_alarm.py:145 | two distinct posting instants are whole weeks apart |
| Schedule.NextPostEarliest | meetup_alarm.py:142-145 | `next_post` is the earliest posting instant at or after now |
| Schedule.WaitSeconds | meetup_alarm.py:146 | the sleep is non-negative, less than a week, and ends at a posting instant |
| Schedule.PlanRounds | meetup_alarm.py:138-149 | with a valid slot, the `while` loop sleeps, in each round, until the next posting instant after that round's clock reading; with an invalid one, no round completes |
| Schedule.NextPostOnNamedDay | meetup_alarm.py:141-145 | the next post falls on the configured day, by name, at the configured hour and minute |
| Schedule.EpochWeekdayIsThursday | meetup_alarm.py:142 | instant 0 lies on the weekday `calendar.THURSDAY` |
| Schedule.NextRoundAWeekLater | meetup_alarm.py:138-149 | a round that starts after a post, within the following week, waits for the post exactly one week later |
| Button.RequestFor | meetup_alarm.py:71-88 | the platform request copies the payload's name, times and location; its description is the event link when that is truthy, else empty |
| Button.FirstFailure | meetup_alarm.py:67-100 | the outcome of the first awaited call that raised is the one the handlers see; `Ok` exactly when none raised |
| Button.FirstFailureAt | meetup_alarm.py:67-100 | when the `j`-th call is the first to raise, its outcome decides |
| Button.Reply | meetup_alarm.py:93-100 | the private reply is the success notice with the created name, the permission notice, or the failure notice, by the first exception |
| Button.CreateEventButton.constructor | meetup_alarm.py:56-63 | the view has the calendar link, the map link only for a non-empty location URL, and an enabled create button |
| Button.CreateEventButton.CreateEvent | meetup_alarm.py:66-100 | the platform request is sent only after a successful defer; the button becomes disabled and "Event Created!" once the event exists, even if a later call fails, and is otherwise unchanged; the reply follows the first exception |
| Button.CreateEventButton.Caught | meetup_alarm.py:95-100 | `Forbidden` gets the permission notice, any other exception the failure notice |

## Left out

- The chat SDK is not modelled: the bot lifecycle, channel lookup, `channel.send`, `message.edit`, `create_scheduled_event`, `followup.send` and view rendering. Each call is an input (`hasChannel`, `headerSent`, `Outcome`). A failed event post is caught and the loop continues, so the model records each formatted post as attempted.
- Aggregation.PostGroups: pairs each formatted message with nothing further. The `CreateEventButton` that the loop builds for each post is modelled separately, by `Button`.
- The HTTP fetch, `UserAgent`, BeautifulSoup and `json.loads` are not modelled. `Sources.fetch` yields the page's script blocks already decoded, or nothing when the request fails.
- Extraction.GetMeetupEvents: skips one block whose text does not decode. An error of another kind while parsing the page or decoding a block (`ValueError`, `RecursionError`; only `JSONDecodeError` is caught per block) reaches the outer `except Exception` before any item is read, so the source loses the whole page's events there. Blocks carry only "decoded" or "not decoded", so the model does not capture that case.
- The sleeps, random delays and the `while not self.is_closed()` driver are not modelled. `PlanRounds` takes each round's clock reading as input.
- Configuration and environment loading, logging, argparse and `main` are left out. `MeetupConfig` keeps only `location`, `search_terms` and `radius`, because `name` and `icon` are only logged.
- Time zones (`pytz`, `astimezone()`), the `strftime` names and the ISO-8601 parse are left out. Instants are integer seconds of local time with a fixed offset, so daylight-saving changes are not modelled.
- Schedule.DaysAhead: compares whole seconds. `now.time() > post_time` also sees microseconds, so a reading within the first second of the posting minute rolls over in the source but not here.
- Schedule.DayNumber: accepts only the seven day names. `getattr(calendar, ...)` would also accept other attribute names of the module.
- Schedule.PlanRounds: `wakes` holds only the rounds that actually happen. The model does not link the rounds to `MeetupTask`: after a cycle that `MeetupTask` ends with `crashed`, the source runs no further round, because the exception ends the background task.
- Schedule.PlanRounds: takes the posting time as an hour and a minute already read and checks only their ranges. The text parse of `strptime(post_time, "%H:%M")` is not modelled, and `str.upper` is the parameter `upper`.
- JSON numbers are reals, and `total_seconds()` floats are integers. `str()` of numbers, lists and objects is the `render` parameter.
- Payload.FormatEvent: leaves `render` unconstrained, so under a `render` that prints blank text a number-valued location would count as absent. `RenderSound` states what Python's `str()` guarantees, and `NonStringLocationRaises` shows that under it such a location always makes formatting fail.
- The header message of `meetup_task` is only sent; its text is not modelled, and `headerSent` gives the outcome of sending it.
- Cleaning.AlnumSound: pins `str.isalnum` down only on ASCII and on whitespace. Unicode letter classes are not modelled, so `\w` is `_` or the `alnum` parameter.
- Ordering.Dedup: compares titles as JSON values. In Python, `1`, `1.0` and `True` are the same dictionary key, and an unhashable title (a list or an object) raises `TypeError`; neither is modelled.
- Aggregation.MeetupTask: uses one clock reading `now` for the buckets and every message. The source reads the clock again inside each `format_event_message`.
- Aggregation.GroupBySearchTerm: never takes the `'Other'` default of `event.get('search_term', 'Other')`, because every extracted event carries its search term.
- Button.CreateEventButton.CreateEvent: an exception raised by the `followup.send` inside an `except` handler would escape the callback; the model still returns the reply.
- The `radius` of a configured location is passed to the query and never used. The URL always says `distance=fiftyMiles`, and the model does the same.
