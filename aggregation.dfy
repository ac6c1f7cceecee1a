/** `MeetupBot.meetup_task`: collect the events of every configured
    query, keep one per title, sort them by time, split off this week's and
    next week's events, group them by search term and post them group by
    group. The channel, the clock, the network and the header post are
    inputs. */
module Aggregation {
  import opened Json
  import opened Extraction
  import opened Ordering
  import opened Payload
  import opened Seqs

  /** The fields of a configured location that the cycle reads. `radius`
      is passed to the query but never reaches the URL. */
  datatype MeetupConfig = MeetupConfig(location: string, searchTerms: seq<string>, radius: int)

  /** What the cycle takes from outside. */
  datatype Sources = Sources(
    fetch: string -> Option<seq<Block>>,  // the JSON-LD script blocks of a page; None when the request fails
    parse: string -> Option<int>,         // datetime.fromisoformat, as an instant
    lower: string -> string)              // str.lower

  const SearchBase := "https://www.meetup.com/find/?suggested=true&source=EVENTS&keywords="

  /** The search page requested for one term at one location. */
  function SearchUrl(fmt: Formatters, src: Sources, term: string, location: string): string
  {
    SearchBase + fmt.quote(term) + "&location=" + LocationToken(src.lower, location) + "&distance=fiftyMiles"
  }

  /** What `get_meetup_events(term, location, radius)` returns. */
  function Fetched(fmt: Formatters, src: Sources, term: string, location: string): seq<Event>
  {
    var page := src.fetch(SearchUrl(fmt, src, term, location));
    if page.None? then [] else ExtractAll(src.parse, fmt.render, term, AllItems(page.value))
  }

  // ---------------------------------------------------------------------
  // Collecting `all_events`

  /** The parts one after the other, as repeated `extend` does. */
  function Concat<T>(parts: seq<seq<T>>): seq<T>
  {
    if parts == [] then [] else Concat(parts[..|parts| - 1]) + parts[|parts| - 1]
  }

  lemma ConcatSnoc<T>(parts: seq<seq<T>>, p: seq<T>)
    ensures Concat(parts + [p]) == Concat(parts) + p
  {
    assert (parts + [p])[..|parts|] == parts;
  }

  /** Concatenating one more part of the same list. */
  lemma ConcatPrefix<T>(parts: seq<seq<T>>, k: nat)
    requires k < |parts|
    ensures Concat(parts[..k + 1]) == Concat(parts[..k]) + parts[k]
  {
    assert parts[..k + 1] == parts[..k] + [parts[k]];
    ConcatSnoc(parts[..k], parts[k]);
  }

  lemma ConcatWhole<T>(parts: seq<seq<T>>)
    ensures Concat(parts[..|parts|]) == Concat(parts)
  {
    assert parts[..|parts|] == parts;
  }

  /** What one part holds is in the concatenation. */
  lemma {:induction false} ConcatHas<T>(parts: seq<seq<T>>, j: nat, e: T)
    requires j < |parts| && e in parts[j]
    ensures e in Concat(parts)
  {
    var n := |parts| - 1;
    if j < n {
      ConcatHas(parts[..n], j, e);
    }
  }

  /** What the concatenation holds is in one of the parts. */
  lemma {:induction false} ConcatSome<T>(parts: seq<seq<T>>, e: T) returns (j: nat)
    requires e in Concat(parts)
    ensures j < |parts| && e in parts[j]
  {
    var n := |parts| - 1;
    if e in parts[n] {
      j := n;
    } else {
      j := ConcatSome(parts[..n], e);
    }
  }

  lemma ConcatMember<T>(parts: seq<seq<T>>, e: T)
    ensures e in Concat(parts) <==> exists j :: 0 <= j < |parts| && e in parts[j]
  {
    if e in Concat(parts) {
      var j := ConcatSome(parts, e);
    }
    if exists j :: 0 <= j < |parts| && e in parts[j] {
      var j :| 0 <= j < |parts| && e in parts[j];
      ConcatHas(parts, j, e);
    }
  }

  /** What each search term of one configured location returns, in order. */
  function Queries(fmt: Formatters, src: Sources, c: MeetupConfig): (q: seq<seq<Event>>)
    ensures |q| == |c.searchTerms|
    ensures forall j :: 0 <= j < |q| ==> q[j] == Fetched(fmt, src, c.searchTerms[j], c.location)
  {
    seq(|c.searchTerms|, j requires 0 <= j < |c.searchTerms| => Fetched(fmt, src, c.searchTerms[j], c.location))
  }

  /** The events of every search term of one configured location. */
  function LocationEvents(fmt: Formatters, src: Sources, c: MeetupConfig): seq<Event>
  {
    Concat(Queries(fmt, src, c))
  }

  /** What each configured location contributes, in order. */
  function PerLocation(fmt: Formatters, src: Sources, cs: seq<MeetupConfig>): (p: seq<seq<Event>>)
    ensures |p| == |cs|
    ensures forall n :: 0 <= n < |p| ==> p[n] == LocationEvents(fmt, src, cs[n])
  {
    seq(|cs|, n requires 0 <= n < |cs| => LocationEvents(fmt, src, cs[n]))
  }

  /** `all_events` after both loops. */
  function Collected(fmt: Formatters, src: Sources, cs: seq<MeetupConfig>): seq<Event>
  {
    Concat(PerLocation(fmt, src, cs))
  }

  /** An event is collected exactly when one of the configured queries
      returned it. */
  lemma CollectedFrom(fmt: Formatters, src: Sources, cs: seq<MeetupConfig>, e: Event)
    ensures e in Collected(fmt, src, cs) <==>
      exists n, j :: 0 <= n < |cs| && 0 <= j < |cs[n].searchTerms| && e in Fetched(fmt, src, cs[n].searchTerms[j], cs[n].location)
  {
    var p := PerLocation(fmt, src, cs);
    ConcatMember(p, e);
    if e in Collected(fmt, src, cs) {
      var n :| 0 <= n < |p| && e in p[n];
      ConcatMember(Queries(fmt, src, cs[n]), e);
    }
    if exists n, j :: 0 <= n < |cs| && 0 <= j < |cs[n].searchTerms| && e in Fetched(fmt, src, cs[n].searchTerms[j], cs[n].location) {
      var n, j :| 0 <= n < |cs| && 0 <= j < |cs[n].searchTerms| && e in Fetched(fmt, src, cs[n].searchTerms[j], cs[n].location);
      ConcatMember(Queries(fmt, src, cs[n]), e);
      assert e in p[n];
    }
  }

  /** Every collected event is labelled with a configured search term. */
  lemma CollectedTerms(fmt: Formatters, src: Sources, cs: seq<MeetupConfig>, e: Event)
    requires e in Collected(fmt, src, cs)
    ensures exists n, j :: 0 <= n < |cs| && 0 <= j < |cs[n].searchTerms| && e.searchTerm == cs[n].searchTerms[j]
  {
    CollectedFrom(fmt, src, cs, e);
    var n, j :| 0 <= n < |cs| && 0 <= j < |cs[n].searchTerms| && e in Fetched(fmt, src, cs[n].searchTerms[j], cs[n].location);
    var term := cs[n].searchTerms[j];
    var page := src.fetch(SearchUrl(fmt, src, term, cs[n].location));
    ExtractAllSound(src.parse, fmt.render, term, AllItems(page.value));
  }

  /** The inner loop: every search term of one configured location. */
  method QueryLocation(fmt: Formatters, src: Sources, c: MeetupConfig) returns (events: seq<Event>)
    ensures events == LocationEvents(fmt, src, c)
  {
    ghost var q := Queries(fmt, src, c);
    events := [];
    var k := 0;
    while k < |c.searchTerms|
      invariant 0 <= k <= |c.searchTerms|
      invariant events == Concat(q[..k])
    {
      var term := c.searchTerms[k];
      var found := GetMeetupEvents(src.parse, fmt.render, term, src.fetch(SearchUrl(fmt, src, term, c.location)));
      assert found == q[k];
      ConcatPrefix(q, k);
      events := events + found;
      k := k + 1;
    }
    ConcatWhole(q);
  }

  /** The outer loop over the configured locations. */
  method CollectEvents(fmt: Formatters, src: Sources, cs: seq<MeetupConfig>) returns (all: seq<Event>)
    ensures all == Collected(fmt, src, cs)
  {
    ghost var p := PerLocation(fmt, src, cs);
    all := [];
    var i := 0;
    while i < |cs|
      invariant 0 <= i <= |cs|
      invariant all == Concat(p[..i])
    {
      var events := QueryLocation(fmt, src, cs[i]);
      assert events == p[i];
      ConcatPrefix(p, i);
      all := all + events;
      i := i + 1;
    }
    ConcatWhole(p);
  }

  // ---------------------------------------------------------------------
  // `this_week` and `next_week`

  /** The events of `s` whose whole-day distance from `now` lies in
      `[lo, hi]`, in order. */
  function InWindow(s: seq<Event>, now: int, lo: int, hi: int): seq<Event>
  {
    if s == [] then []
    else (if InDays(s[0], now, lo, hi) then [s[0]] else []) + InWindow(s[1..], now, lo, hi)
  }

  predicate InDays(e: Event, now: int, lo: int, hi: int)
  {
    lo <= DaysDiff(e.time, now) <= hi
  }

  /** `a` is `b` with some events left out. */
  predicate SubseqOf(a: seq<Event>, b: seq<Event>)
  {
    if a == [] then true
    else if b == [] then false
    else if a[0] == b[0] then SubseqOf(a[1..], b[1..])
    else SubseqOf(a, b[1..])
  }

  lemma {:induction false} InWindowAppend(a: seq<Event>, b: seq<Event>, now: int, lo: int, hi: int)
    ensures InWindow(a + b, now, lo, hi) == InWindow(a, now, lo, hi) + InWindow(b, now, lo, hi)
  {
    if a != [] {
      assert (a + b)[0] == a[0];
      assert (a + b)[1..] == a[1..] + b;
      InWindowAppend(a[1..], b, now, lo, hi);
    } else {
      assert a + b == b;
    }
  }

  lemma InWindowSnoc(s: seq<Event>, i: nat, now: int, lo: int, hi: int)
    requires i < |s|
    ensures InWindow(s[..i + 1], now, lo, hi) ==
      InWindow(s[..i], now, lo, hi) + (if InDays(s[i], now, lo, hi) then [s[i]] else [])
  {
    assert s[..i + 1] == s[..i] + [s[i]];
    InWindowAppend(s[..i], [s[i]], now, lo, hi);
  }

  /** An event is in the window exactly when it is one of `s` at a
      distance in `[lo, hi]`. */
  lemma {:induction false} InWindowMembers(s: seq<Event>, now: int, lo: int, hi: int)
    ensures forall e :: e in InWindow(s, now, lo, hi) <==> e in s && lo <= DaysDiff(e.time, now) <= hi
  {
    if s != [] {
      InWindowMembers(s[1..], now, lo, hi);
      assert s == [s[0]] + s[1..];
    }
  }

  /** The window keeps the order of `s`. */
  lemma {:induction false} InWindowSubseq(s: seq<Event>, now: int, lo: int, hi: int)
    ensures SubseqOf(InWindow(s, now, lo, hi), s)
  {
    if s != [] {
      InWindowSubseq(s[1..], now, lo, hi);
      var w := InWindow(s, now, lo, hi);
      var rest := InWindow(s[1..], now, lo, hi);
      if InDays(s[0], now, lo, hi) {
        assert w[0] == s[0] && w[1..] == rest;
      } else {
        assert w == rest;
        if rest != [] {
          SubseqDrop(rest, s[1..], s[0]);
        }
      }
    }
  }

  /** A subsequence of `b` is one of `[x] + b`. */
  lemma {:induction false} SubseqDrop(a: seq<Event>, b: seq<Event>, x: Event)
    requires SubseqOf(a, b)
    ensures SubseqOf(a, [x] + b)
    decreases |a| + |b|, 1
  {
    var xb := [x] + b;
    assert xb[1..] == b;
    if a != [] && a[0] == x {
      SubseqTail(a, b);
    }
  }

  /** Dropping the first event keeps a subsequence. */
  lemma {:induction false} SubseqTail(a: seq<Event>, b: seq<Event>)
    requires a != [] && SubseqOf(a, b)
    ensures SubseqOf(a[1..], b)
    decreases |a| + |b|, 0
  {
    assert b != [];
    if a[0] == b[0] {
      if a[1..] != [] {
        SubseqDrop(a[1..], b[1..], b[0]);
        assert [b[0]] + b[1..] == b;
      }
    } else {
      SubseqTail(a, b[1..]);
      if a[1..] != [] {
        SubseqDrop(a[1..], b[1..], b[0]);
        assert [b[0]] + b[1..] == b;
      }
    }
  }

  /** A window of a chronological list is chronological. */
  lemma {:induction false} InWindowChrono(s: seq<Event>, now: int, lo: int, hi: int)
    requires Chronological(s)
    ensures Chronological(InWindow(s, now, lo, hi))
  {
    if s != [] {
      InWindowChrono(s[1..], now, lo, hi);
      InWindowMembers(s[1..], now, lo, hi);
      var w := InWindow(s, now, lo, hi);
      var rest := InWindow(s[1..], now, lo, hi);
      if InDays(s[0], now, lo, hi) {
        assert w[1..] == rest;
        forall j | 0 < j < |w| ensures w[0].time <= w[j].time {
          assert w[j] in rest;
        }
      }
    }
  }

  /** The two buckets have no event in common. */
  lemma WeeksDisjoint(s: seq<Event>, now: int, e: Event)
    ensures !(e in InWindow(s, now, 0, 7) && e in InWindow(s, now, 8, 14))
  {
    InWindowMembers(s, now, 0, 7);
    InWindowMembers(s, now, 8, 14);
  }

  /** The loop that fills `this_week` and `next_week`. */
  method Buckets(sorted: seq<Event>, now: int) returns (thisWeek: seq<Event>, nextWeek: seq<Event>)
    ensures thisWeek == InWindow(sorted, now, 0, 7)
    ensures nextWeek == InWindow(sorted, now, 8, 14)
  {
    thisWeek, nextWeek := [], [];
    var i := 0;
    while i < |sorted|
      invariant 0 <= i <= |sorted|
      invariant thisWeek == InWindow(sorted[..i], now, 0, 7)
      invariant nextWeek == InWindow(sorted[..i], now, 8, 14)
    {
      var d := DaysDiff(sorted[i].time, now);
      if 0 <= d <= 7 {
        thisWeek := thisWeek + [sorted[i]];
      } else if 8 <= d <= 14 {
        nextWeek := nextWeek + [sorted[i]];
      }
      InWindowSnoc(sorted, i, now, 0, 7);
      InWindowSnoc(sorted, i, now, 8, 14);
      i := i + 1;
    }
    assert sorted[..i] == sorted;
  }

  // ---------------------------------------------------------------------
  // `events_by_search_term`

  /** The events of `s` with search term `t`, in order. */
  function SelectTerm(s: seq<Event>, t: string): seq<Event>
  {
    if s == [] then [] else Hit(s[0], t) + SelectTerm(s[1..], t)
  }

  /** `[e]` when `e` has search term `t`. */
  function Hit(e: Event, t: string): seq<Event>
  {
    if e.searchTerm == t then [e] else []
  }

  /** The keys of the dictionary in insertion order: each search term at
      its first appearance. */
  function Terms(s: seq<Event>): seq<string>
  {
    if s == [] then []
    else
      var ts := Terms(s[..|s| - 1]);
      var t := s[|s| - 1].searchTerm;
      if t in ts then ts else ts + [t]
  }

  /** The posting order: the groups one after the other. */
  function Groups(s: seq<Event>, ts: seq<string>): seq<Event>
  {
    if ts == [] then [] else SelectTerm(s, ts[0]) + Groups(s, ts[1..])
  }

  predicate Distinct(ts: seq<string>)
  {
    forall a, b :: 0 <= a < b < |ts| ==> ts[a] != ts[b]
  }

  lemma {:induction false} SelectTermAppend(a: seq<Event>, b: seq<Event>, t: string)
    ensures SelectTerm(a + b, t) == SelectTerm(a, t) + SelectTerm(b, t)
  {
    if a != [] {
      assert (a + b)[0] == a[0];
      assert (a + b)[1..] == a[1..] + b;
      SelectTermAppend(a[1..], b, t);
    } else {
      assert a + b == b;
    }
  }

  lemma SelectTermSnoc(s: seq<Event>, i: nat, t: string)
    requires i < |s|
    ensures SelectTerm(s[..i + 1], t) == SelectTerm(s[..i], t) + Hit(s[i], t)
  {
    assert s[..i + 1] == s[..i] + [s[i]];
    SelectTermAppend(s[..i], [s[i]], t);
  }

  lemma {:induction false} SelectTermMembers(s: seq<Event>, t: string)
    ensures forall e :: e in SelectTerm(s, t) <==> e in s && e.searchTerm == t
  {
    if s != [] {
      SelectTermMembers(s[1..], t);
      assert s == [s[0]] + s[1..];
    }
  }

  /** Each group lists its events in the order of `s`, so a group of the
      sorted list is itself chronological. */
  lemma {:induction false} SelectTermChrono(s: seq<Event>, t: string)
    requires Chronological(s)
    ensures Chronological(SelectTerm(s, t))
  {
    if s != [] {
      SelectTermChrono(s[1..], t);
      SelectTermMembers(s[1..], t);
      var g := SelectTerm(s, t);
      var rest := SelectTerm(s[1..], t);
      if s[0].searchTerm == t {
        assert g[1..] == rest;
        forall j | 0 < j < |g| ensures g[0].time <= g[j].time {
          assert g[j] in rest;
        }
      }
    }
  }

  lemma {:induction false} SelectTermSubseq(s: seq<Event>, t: string)
    ensures SubseqOf(SelectTerm(s, t), s)
  {
    if s != [] {
      SelectTermSubseq(s[1..], t);
      var g := SelectTerm(s, t);
      var rest := SelectTerm(s[1..], t);
      if s[0].searchTerm == t {
        assert g[0] == s[0] && g[1..] == rest;
      } else {
        assert g == rest;
        if rest != [] {
          SubseqDrop(rest, s[1..], s[0]);
        }
      }
    }
  }

  /** The keys are distinct, and a term is a key exactly when its group is
      not empty. */
  lemma {:induction false} TermsSpec(s: seq<Event>)
    ensures Distinct(Terms(s))
    ensures forall t :: t in Terms(s) <==> SelectTerm(s, t) != []
  {
    if s != [] {
      var n := |s| - 1;
      TermsSpec(s[..n]);
      var ts := Terms(s[..n]);
      var x := s[n].searchTerm;
      assert s[..n + 1] == s;
      forall t ensures t in Terms(s) <==> SelectTerm(s, t) != [] {
        SelectTermSnoc(s, n, t);
      }
      if x !in ts {
        var r := ts + [x];
        forall a, b | 0 <= a < b < |r| ensures r[a] != r[b] {
          assert r[a] == ts[a];
          if b < |ts| {
            assert r[b] == ts[b];
          }
        }
      }
    }
  }

  /** The position of the first event with search term `t`, or `|s|`. */
  function TermIndex(s: seq<Event>, t: string): (i: nat)
    ensures i <= |s|
    ensures i < |s| ==> s[i].searchTerm == t
    ensures forall k :: 0 <= k < i ==> s[k].searchTerm != t
  {
    if s == [] then 0 else if s[0].searchTerm == t then 0 else 1 + TermIndex(s[1..], t)
  }

  lemma {:induction false} TermIndexSnoc(p: seq<Event>, x: Event, t: string)
    ensures TermIndex(p, t) < |p| ==> TermIndex(p + [x], t) == TermIndex(p, t)
    ensures TermIndex(p, t) == |p| && x.searchTerm == t ==> TermIndex(p + [x], t) == |p|
  {
    if p != [] {
      assert (p + [x])[1..] == p[1..] + [x];
      TermIndexSnoc(p[1..], x, t);
    }
  }

  lemma {:induction false} TermIndexMissing(s: seq<Event>, t: string)
    requires SelectTerm(s, t) == []
    ensures TermIndex(s, t) == |s|
  {
    if s != [] {
      TermIndexMissing(s[1..], t);
    }
  }

  /** The keys come in the order in which their terms first appear. */
  lemma {:induction false} TermsFirstAppearance(s: seq<Event>)
    ensures forall a :: 0 <= a < |Terms(s)| ==> TermIndex(s, Terms(s)[a]) < |s|
    ensures forall a, b :: 0 <= a < b < |Terms(s)| ==> TermIndex(s, Terms(s)[a]) < TermIndex(s, Terms(s)[b])
  {
    if s != [] {
      var n := |s| - 1;
      var p, x := s[..n], s[n];
      assert s == p + [x];
      TermsFirstAppearance(p);
      var ts := Terms(p);
      forall a | 0 <= a < |ts| ensures TermIndex(s, ts[a]) == TermIndex(p, ts[a]) < |p| {
        TermIndexSnoc(p, x, ts[a]);
      }
      if x.searchTerm !in ts {
        TermsSpec(p);
        TermIndexMissing(p, x.searchTerm);
        TermIndexSnoc(p, x, x.searchTerm);
        var r := ts + [x.searchTerm];
        assert Terms(s) == r;
        forall a, b | 0 <= a < b < |r| ensures TermIndex(s, r[a]) < TermIndex(s, r[b]) {
          assert r[a] == ts[a];
          if b < |ts| {
            assert r[b] == ts[b];
          }
        }
      }
    }
  }

  lemma {:induction false} GroupsOfEmpty(ts: seq<string>)
    ensures Groups([], ts) == []
  {
    if ts != [] {
      GroupsOfEmpty(ts[1..]);
    }
  }

  lemma DistinctTail(ts: seq<string>)
    requires ts != [] && Distinct(ts)
    ensures Distinct(ts[1..]) && ts[0] !in ts[1..]
  {
    forall a, b | 0 <= a < b < |ts[1..]| ensures ts[1..][a] != ts[1..][b] {
      assert ts[1..][a] == ts[a + 1] && ts[1..][b] == ts[b + 1];
    }
    if ts[0] in ts[1..] {
      assert false;
    }
  }

  /** Prepending an event adds it once to the groups, when its term is one
      of the distinct `ts`, and not at all otherwise. */
  lemma {:induction false} GroupsCons(x: Event, s: seq<Event>, ts: seq<string>)
    requires Distinct(ts)
    ensures multiset(Groups([x] + s, ts)) == multiset(Groups(s, ts)) + Once(x, ts)
  {
    if ts != [] {
      DistinctTail(ts);
      GroupsCons(x, s, ts[1..]);
      var xs := [x] + s;
      assert xs[0] == x && xs[1..] == s;
      var hit := Hit(x, ts[0]);
      var a := SelectTerm(s, ts[0]);
      var rest := Groups(xs, ts[1..]);
      assert Groups(xs, ts) == (hit + a) + rest;
      assert multiset(rest) == multiset(Groups(s, ts[1..])) + Once(x, ts[1..]);
      assert Groups(s, ts) == a + Groups(s, ts[1..]);
      OnceHead(x, ts);
    }
  }

  /** `x` once when its term is one of `ts`, otherwise not at all. */
  function Once(x: Event, ts: seq<string>): multiset<Event>
  {
    if x.searchTerm in ts then multiset{x} else multiset{}
  }

  lemma OnceHead(x: Event, ts: seq<string>)
    requires ts != [] && ts[0] !in ts[1..]
    ensures Once(x, ts) == multiset(Hit(x, ts[0])) + Once(x, ts[1..])
  {
    assert ts == [ts[0]] + ts[1..];
  }

  /** Grouping over distinct terms that include every event's term loses
      and repeats nothing. */
  lemma {:induction false} GroupsPermutation(s: seq<Event>, ts: seq<string>)
    requires Distinct(ts)
    requires forall i :: 0 <= i < |s| ==> s[i].searchTerm in ts
    ensures multiset(Groups(s, ts)) == multiset(s)
  {
    if s == [] {
      GroupsOfEmpty(ts);
    } else {
      assert s == [s[0]] + s[1..];
      GroupsPermutation(s[1..], ts);
      GroupsCons(s[0], s[1..], ts);
    }
  }

  /** Posting group by group posts every sorted event exactly once, and
      each group in chronological order. */
  lemma PostingOrder(s: seq<Event>)
    requires Chronological(s)
    ensures multiset(Groups(s, Terms(s))) == multiset(s)
    ensures forall t :: t in Terms(s) ==> Chronological(SelectTerm(s, t))
  {
    TermsSpec(s);
    forall i | 0 <= i < |s| ensures s[i].searchTerm in Terms(s) {
      SelectTermMembers(s, s[i].searchTerm);
    }
    GroupsPermutation(s, Terms(s));
    forall t | t in Terms(s) ensures Chronological(SelectTerm(s, t)) {
      SelectTermChrono(s, t);
    }
  }

  /** The loop that builds `events_by_search_term`; `terms` is its key
      order. */
  method GroupBySearchTerm(sorted: seq<Event>) returns (terms: seq<string>, groups: map<string, seq<Event>>)
    ensures terms == Terms(sorted)
    ensures forall t :: t in groups <==> t in terms
    ensures forall t :: t in groups ==> groups[t] == SelectTerm(sorted, t)
  {
    terms, groups := [], map[];
    var i := 0;
    while i < |sorted|
      invariant 0 <= i <= |sorted|
      invariant terms == Terms(sorted[..i])
      invariant forall t :: t in groups <==> t in terms
      invariant forall t :: t in groups ==> groups[t] == SelectTerm(sorted[..i], t)
    {
      var e := sorted[i];
      var st := e.searchTerm;
      TermsSpec(sorted[..i]);
      if st !in groups {
        terms := terms + [st];
        groups := groups[st := []];
      }
      groups := groups[st := groups[st] + [e]];
      forall t ensures SelectTerm(sorted[..i + 1], t) == SelectTerm(sorted[..i], t) + Hit(e, t) {
        SelectTermSnoc(sorted, i, t);
      }
      assert sorted[..i + 1][..i] == sorted[..i];
      i := i + 1;
    }
    assert sorted[..i] == sorted;
  }

  // ---------------------------------------------------------------------
  // Posting

  /** The messages formatted before the first event that makes
      `format_event_message` raise, and whether one did. The `TypeError`
      is not an `HTTPException`, so it leaves the cycle. */
  datatype Run = Run(posts: seq<Formatted>, crashed: bool)

  /** `format_event_message` with the formatters and the clock fixed. */
  function Formatter(fmt: Formatters, now: int): Event -> Option<Formatted>
  {
    e => FormatEvent(fmt, now, e)
  }

  function FormatRun<E>(format: E -> Option<Formatted>, es: seq<E>): (r: Run)
    ensures |r.posts| <= |es|
    ensures forall i :: 0 <= i < |r.posts| ==> format(es[i]) == Some(r.posts[i])
    ensures !r.crashed <==> |r.posts| == |es|
    ensures r.crashed ==> format(es[|r.posts|]).None?
  {
    if es == [] then Run([], false)
    else
      match format(es[0])
      case None => Run([], true)
      case Some(f) =>
        var rest := FormatRun(format, es[1..]);
        Run([f] + rest.posts, rest.crashed)
  }

  lemma {:induction false} FormatRunSnoc<E>(format: E -> Option<Formatted>, es: seq<E>, x: E)
    requires !FormatRun(format, es).crashed
    ensures FormatRun(format, es + [x]) ==
      match format(x)
      case None => Run(FormatRun(format, es).posts, true)
      case Some(f) => Run(FormatRun(format, es).posts + [f], false)
  {
    if es == [] {
      assert [] + [x] == [x];
    } else {
      assert (es + [x])[0] == es[0];
      assert (es + [x])[1..] == es[1..] + [x];
      FormatRunSnoc(format, es[1..], x);
    }
  }

  /** Nothing after the first failure is formatted. */
  lemma {:induction false} FormatRunCrashed<E>(format: E -> Option<Formatted>, a: seq<E>, b: seq<E>)
    requires FormatRun(format, a).crashed
    ensures FormatRun(format, a + b) == FormatRun(format, a)
  {
    assert a != [];
    assert (a + b)[0] == a[0];
    assert (a + b)[1..] == a[1..] + b;
    if format(a[0]).Some? {
      FormatRunCrashed(format, a[1..], b);
    }
  }

  /** The events of the groups `ts` of `g`, one group after the other. */
  function Flatten(ts: seq<string>, g: map<string, seq<Event>>): seq<Event>
    requires forall t :: t in ts ==> t in g
  {
    if ts == [] then [] else g[ts[0]] + Flatten(ts[1..], g)
  }

  lemma {:induction false} FlattenAppend(a: seq<string>, b: seq<string>, g: map<string, seq<Event>>)
    requires forall t :: t in a + b ==> t in g
    ensures Flatten(a + b, g) == Flatten(a, g) + Flatten(b, g)
  {
    if a != [] {
      assert (a + b)[0] == a[0];
      assert (a + b)[1..] == a[1..] + b;
      FlattenAppend(a[1..], b, g);
    } else {
      assert a + b == b;
    }
  }

  /** The dictionary's groups are the groups of the sorted list. */
  lemma {:induction false} FlattenGroups(s: seq<Event>, ts: seq<string>, g: map<string, seq<Event>>)
    requires forall t :: t in ts ==> t in g && g[t] == SelectTerm(s, t)
    ensures Flatten(ts, g) == Groups(s, ts)
  {
    if ts != [] {
      FlattenGroups(s, ts[1..], g);
    }
  }

  /** The inner loop over one group, after the events `done` have given
      `posts0`. */
  method PostGroup(format: Event -> Option<Formatted>, events: seq<Event>, ghost done: seq<Event>, posts0: seq<Formatted>)
    returns (posts: seq<Formatted>, crashed: bool)
    requires FormatRun(format, done) == Run(posts0, false)
    ensures Run(posts, crashed) == FormatRun(format, done + events)
  {
    posts := posts0;
    var k := 0;
    while k < |events|
      invariant 0 <= k <= |events|
      invariant FormatRun(format, done + events[..k]) == Run(posts, false)
    {
      var m := format(events[k]);
      FormatRunSnoc(format, done + events[..k], events[k]);
      AppendTakeSnoc(done, events, k);
      if m.None? {
        AppendSplit(done, events, k + 1);
        FormatRunCrashed(format, done + events[..k + 1], events[k + 1..]);
        return posts, true;
      }
      posts := posts + [m.value];
      k := k + 1;
    }
    TakeAll(events);
    return posts, false;
  }

  /** The outer loop over the groups, `format` being
      `format_event_message`: a formatting failure ends the cycle, a failed
      send is only logged. */
  method PostGroups(format: Event -> Option<Formatted>, terms: seq<string>, groups: map<string, seq<Event>>)
    returns (posts: seq<Formatted>, crashed: bool)
    requires forall t :: t in terms ==> t in groups
    ensures Run(posts, crashed) == FormatRun(format, Flatten(terms, groups))
  {
    posts := [];
    var i := 0;
    while i < |terms|
      invariant 0 <= i <= |terms|
      invariant FormatRun(format, Flatten(terms[..i], groups)) == Run(posts, false)
    {
      var more, failed := PostGroup(format, groups[terms[i]], Flatten(terms[..i], groups), posts);
      FlattenSnoc(terms, i, groups);
      if failed {
        TakeDrop(terms, i + 1);
        FlattenAppend(terms[..i + 1], terms[i + 1..], groups);
        FormatRunCrashed(format, Flatten(terms[..i + 1], groups), Flatten(terms[i + 1..], groups));
        return more, true;
      }
      posts := more;
      i := i + 1;
    }
    TakeAll(terms);
    return posts, false;
  }

  lemma FlattenSnoc(ts: seq<string>, i: nat, g: map<string, seq<Event>>)
    requires forall t :: t in ts ==> t in g
    requires i < |ts|
    ensures Flatten(ts[..i + 1], g) == Flatten(ts[..i], g) + g[ts[i]]
  {
    assert ts[..i + 1] == ts[..i] + [ts[i]];
    FlattenAppend(ts[..i], [ts[i]], g);
    assert Flatten([ts[i]], g) == g[ts[i]] + Flatten([], g);
  }

  // ---------------------------------------------------------------------
  // One cycle

  /** How a cycle ends. The buckets are computed (and only logged) before
      the header is sent. */
  datatype Cycle =
    | NoChannel
    | NoEvents
    | HeaderFailed(thisWeek: seq<Event>, nextWeek: seq<Event>)
    | Posted(thisWeek: seq<Event>, nextWeek: seq<Event>, posts: seq<Formatted>, crashed: bool)

  /** `sorted_events`. */
  function SortedEvents(all: seq<Event>): seq<Event>
  {
    SortByTime(Dedup(all))
  }

  /** `meetup_task`. `hasChannel` says whether the channel was found,
      `headerSent` whether sending the header message succeeded; `now` is the clock
      for the whole cycle. */
  method MeetupTask(fmt: Formatters, src: Sources, now: int, hasChannel: bool, configs: seq<MeetupConfig>, headerSent: bool)
    returns (c: Cycle)
    ensures !hasChannel <==> c.NoChannel?
    ensures c.NoEvents? <==> hasChannel && Collected(fmt, src, configs) == []
    ensures c.HeaderFailed? <==> hasChannel && Collected(fmt, src, configs) != [] && !headerSent
    ensures c.HeaderFailed? || c.Posted? ==>
      var sorted := SortedEvents(Collected(fmt, src, configs));
      && c.thisWeek == InWindow(sorted, now, 0, 7)
      && c.nextWeek == InWindow(sorted, now, 8, 14)
    ensures c.Posted? ==>
      var sorted := SortedEvents(Collected(fmt, src, configs));
      Run(c.posts, c.crashed) == FormatRun(Formatter(fmt, now), Groups(sorted, Terms(sorted)))
  {
    if !hasChannel {
      return NoChannel;
    }
    var all := CollectEvents(fmt, src, configs);
    if all == [] {
      return NoEvents;
    }
    var sorted := SortedEvents(all);
    var thisWeek, nextWeek := Buckets(sorted, now);
    if !headerSent {
      return HeaderFailed(thisWeek, nextWeek);
    }
    var terms, groups := GroupBySearchTerm(sorted);
    var posts, crashed := PostGroups(Formatter(fmt, now), terms, groups);
    FlattenGroups(sorted, terms, groups);
    c := Posted(thisWeek, nextWeek, posts, crashed);
  }

  /** Every event that survives deduplication is posted exactly once, each
      group in chronological order. */
  lemma EveryEventPostedOnce(all: seq<Event>)
    ensures var sorted := SortedEvents(all);
      && multiset(Groups(sorted, Terms(sorted))) == multiset(Dedup(all))
      && DistinctTitles(Dedup(all))
      && forall t :: t in Terms(sorted) ==> Chronological(SelectTerm(sorted, t))
  {
    var sorted := SortedEvents(all);
    SortByTimeSpec(Dedup(all));
    PostingOrder(sorted);
    DedupDistinct(all);
  }

  /** The buckets decide nothing about posting: an event already in the
      past is in neither bucket and is still posted. */
  lemma PastEventsPosted(all: seq<Event>, now: int, e: Event)
    requires e in Dedup(all) && DaysDiff(e.time, now) < 0
    ensures var sorted := SortedEvents(all);
      && e !in InWindow(sorted, now, 0, 7)
      && e !in InWindow(sorted, now, 8, 14)
      && e in Groups(sorted, Terms(sorted))
  {
    var sorted := SortedEvents(all);
    EveryEventPostedOnce(all);
    InWindowMembers(sorted, now, 0, 7);
    InWindowMembers(sorted, now, 8, 14);
    assert e in multiset(Dedup(all));
  }
}
