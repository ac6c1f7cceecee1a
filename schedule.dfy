/** The arithmetic of `weekly_meetup_task`: the next posting instant after
    the current local time. Instants are whole seconds of local wall-clock
    time since 1970-01-01 00:00, a Thursday. */
module Schedule {
  import opened Json

  const Day := 86400

  /** Where the week starts: `calendar.MONDAY` is 0, 1970-01-01 was day 3. */
  const EpochWeekday := 3

  /** The configured posting slot: `calendar.<POST_DAY>` and `post_time`. */
  datatype Slot = Slot(weekday: int, hour: int, minute: int)

  predicate ValidSlot(s: Slot)
  {
    0 <= s.weekday < 7 && 0 <= s.hour < 24 && 0 <= s.minute < 60
  }

  /** The day constants of `calendar`, in the order of their values. */
  const DayNames := ["MONDAY", "TUESDAY", "WEDNESDAY", "THURSDAY", "FRIDAY", "SATURDAY", "SUNDAY"]

  /** `getattr(calendar, name)` for the seven day names. */
  function DayNumber(name: string): (r: Option<int>)
    ensures r.Some? <==> name in DayNames
    ensures r.Some? ==> 0 <= r.value < 7 && DayNames[r.value] == name
  {
    if name == "MONDAY" then Some(0)
    else if name == "TUESDAY" then Some(1)
    else if name == "WEDNESDAY" then Some(2)
    else if name == "THURSDAY" then Some(3)
    else if name == "FRIDAY" then Some(4)
    else if name == "SATURDAY" then Some(5)
    else if name == "SUNDAY" then Some(6)
    else None
  }

  /** The slot of one round: `getattr(calendar, post_day.upper())` and the
      hour and minute `strptime(post_time, "%H:%M")` read; absent where
      either raises. */
  function SlotOf(day: string, hour: int, minute: int): (r: Option<Slot>)
    ensures r.Some? <==> day in DayNames && 0 <= hour < 24 && 0 <= minute < 60
    ensures r.Some? ==> ValidSlot(r.value) && DayNames[r.value.weekday] == day
    ensures r.Some? ==> r.value.hour == hour && r.value.minute == minute
  {
    match DayNumber(day)
    case None => None
    case Some(w) => if 0 <= hour < 24 && 0 <= minute < 60 then Some(Slot(w, hour, minute)) else None
  }

  function Weekday(t: int): int
  {
    (t / Day + EpochWeekday) % 7
  }

  function SecondOfDay(t: int): int
  {
    t % Day
  }

  function SlotSecond(s: Slot): int
  {
    s.hour * 3600 + s.minute * 60
  }

  /** `days_ahead`: the days to the posting weekday, a full week when that
      is today and the posting time has passed. */
  function DaysAhead(s: Slot, now: int): (d: int)
    requires ValidSlot(s)
    ensures 0 <= d <= 7
    ensures (Weekday(now) + d) % 7 == s.weekday
    ensures d == 7 <==> Weekday(now) == s.weekday && SecondOfDay(now) > SlotSecond(s)
  {
    var d := (s.weekday - Weekday(now)) % 7;
    if d == 0 && SecondOfDay(now) > SlotSecond(s) then 7 else d
  }

  /** `next_post`: midnight of the day `days_ahead` ahead, at the posting
      time. */
  function NextPost(s: Slot, now: int): int
    requires ValidSlot(s)
  {
    (now / Day + DaysAhead(s, now)) * Day + SlotSecond(s)
  }

  /** An instant at the posting weekday and time. */
  predicate IsSlot(s: Slot, t: int)
  {
    Weekday(t) == s.weekday && SecondOfDay(t) == SlotSecond(s)
  }

  /** The next post is a slot, not before now and less than a week away. */
  lemma NextPostSlot(s: Slot, now: int)
    requires ValidSlot(s)
    ensures IsSlot(s, NextPost(s, now))
    ensures now <= NextPost(s, now) < now + 7 * Day
  {
    var n := NextPost(s, now);
    var e := now / Day + DaysAhead(s, now);
    assert n / Day == e && n % Day == SlotSecond(s);
  }

  /** Two distinct slots are whole weeks apart. */
  lemma SlotsWeeksApart(s: Slot, a: int, b: int)
    requires ValidSlot(s) && IsSlot(s, a) && IsSlot(s, b) && a < b
    ensures (b - a) % (7 * Day) == 0
    ensures b - a >= 7 * Day
  {
    var ea, eb := a / Day, b / Day;
    assert a == ea * Day + SlotSecond(s) && b == eb * Day + SlotSecond(s);
    assert (ea + EpochWeekday) % 7 == (eb + EpochWeekday) % 7;
    assert (eb - ea) % 7 == 0;
    var w := (eb - ea) / 7;
    assert b - a == w * (7 * Day);
    assert w >= 1;
  }

  /** The next post is the earliest slot at or after now. */
  lemma NextPostEarliest(s: Slot, now: int, t: int)
    requires ValidSlot(s) && IsSlot(s, t) && t >= now
    ensures NextPost(s, now) <= t
  {
    NextPostSlot(s, now);
    var n := NextPost(s, now);
    if t < n {
      SlotsWeeksApart(s, t, n);
      assert false;
    }
  }

  /** The sleep that follows: `(next_post - now).total_seconds()`. */
  function WaitSeconds(s: Slot, now: int): (w: int)
    requires ValidSlot(s)
    ensures 0 <= w < 7 * Day
    ensures IsSlot(s, now + w)
  {
    NextPostSlot(s, now);
    NextPost(s, now) - now
  }

  /** The `while` loop of `weekly_meetup_task`: `wakes[i]` is the clock
      reading at the start of the `i`-th round, the round sleeps until
      `posts[i]`, and an unknown day name or an out-of-range time raises in
      the first round. */
  method PlanRounds(upper: string -> string, postDay: string, hour: int, minute: int, wakes: seq<int>)
    returns (posts: seq<int>)
    ensures SlotOf(upper(postDay), hour, minute).None? ==> posts == []
    ensures SlotOf(upper(postDay), hour, minute).Some? ==>
      var s := SlotOf(upper(postDay), hour, minute).value;
      && |posts| == |wakes|
      && forall i :: 0 <= i < |wakes| ==> posts[i] == NextPost(s, wakes[i])
  {
    ghost var slot := SlotOf(upper(postDay), hour, minute);
    posts := [];
    var i := 0;
    while i < |wakes|
      invariant 0 <= i <= |wakes|
      invariant slot.None? ==> i == 0 && posts == []
      invariant slot.Some? ==> |posts| == i && forall k :: 0 <= k < i ==> posts[k] == NextPost(slot.value, wakes[k])
    {
      var s := SlotOf(upper(postDay), hour, minute);
      if s.None? {
        return;
      }
      var days := DaysAhead(s.value, wakes[i]);
      var next := (wakes[i] / Day + days) * Day + SlotSecond(s.value);
      assert next == NextPost(s.value, wakes[i]);
      posts := posts + [next];
      i := i + 1;
    }
  }

  /** The next post falls on the configured day, by name, at the
      configured hour and minute. */
  lemma NextPostOnNamedDay(day: string, hour: int, minute: int, now: int)
    requires SlotOf(day, hour, minute).Some?
    ensures var s := SlotOf(day, hour, minute).value;
      && DayNames[Weekday(NextPost(s, now))] == day
      && SecondOfDay(NextPost(s, now)) == hour * 3600 + minute * 60
  {
    NextPostSlot(SlotOf(day, hour, minute).value, now);
  }

  /** The instants count from a Thursday, `calendar.THURSDAY`. */
  lemma EpochWeekdayIsThursday()
    ensures DayNumber("THURSDAY") == Some(Weekday(0))
  {
  }

  /** A round that starts after the previous post, within the week that
      follows it, waits for the post exactly one week later. */
  lemma NextRoundAWeekLater(s: Slot, post: int, wake: int)
    requires ValidSlot(s) && IsSlot(s, post)
    requires post < wake <= post + 7 * Day
    ensures NextPost(s, wake) == post + 7 * Day
  {
    var later := post + 7 * Day;
    assert IsSlot(s, later) by {
      assert later / Day == post / Day + 7;
      assert later % Day == post % Day;
    }
    NextPostEarliest(s, wake, later);
    NextPostSlot(s, wake);
    var n := NextPost(s, wake);
    if n < later {
      SlotsWeeksApart(s, post, n);
      assert false;
    }
  }
}
