/** The two pure steps of `meetup_task` between collecting and
    bucketing: the dictionary comprehension that keeps one event per
    title, and `sorted(..., key=time)`. */
module Ordering {
  import opened Json
  import opened Extraction
  import opened Seqs

  // ---------------------------------------------------------------------
  // `{event['title']: event for event in all_events}.values()`

  /** The position of the first event titled `t`, or `|s|`. */
  function TitleIndex(s: seq<Event>, t: Json): (i: nat)
    ensures i <= |s|
    ensures i < |s| ==> s[i].title == t
    ensures forall k :: 0 <= k < i ==> s[k].title != t
  {
    if s == [] then 0 else if s[0].title == t then 0 else 1 + TitleIndex(s[1..], t)
  }

  /** `d[e['title']] = e` on a dictionary kept as its sequence of values in
      insertion order: a title already present keeps its place and takes
      the new value; a new title goes at the end. */
  function Put(d: seq<Event>, e: Event): seq<Event>
  {
    var i := TitleIndex(d, e.title);
    if i < |d| then d[i := e] else d + [e]
  }

  function Dedup(s: seq<Event>): seq<Event>
  {
    if s == [] then [] else Put(Dedup(s[..|s| - 1]), s[|s| - 1])
  }

  predicate DistinctTitles(r: seq<Event>)
  {
    forall i, j :: 0 <= i < j < |r| ==> r[i].title != r[j].title
  }

  /** `s[j]` is the last event of `s` with its title. */
  predicate LastOfTitle(s: seq<Event>, j: nat)
    requires j < |s|
  {
    forall k :: j < k < |s| ==> s[k].title != s[j].title
  }

  /** Appending keeps the first position of a title already present. */
  lemma {:induction false} TitleIndexSnoc(p: seq<Event>, e: Event, t: Json)
    ensures TitleIndex(p, t) < |p| ==> TitleIndex(p + [e], t) == TitleIndex(p, t)
    ensures TitleIndex(p, t) == |p| && e.title == t ==> TitleIndex(p + [e], t) == |p|
  {
    if p != [] {
      assert (p + [e])[1..] == p[1..] + [e];
      TitleIndexSnoc(p[1..], e, t);
    }
  }

  lemma DedupLast(s: seq<Event>)
    requires s != []
    ensures Dedup(s) == Put(Dedup(s[..|s| - 1]), s[|s| - 1])
  {
  }

  /** No two kept events share a title, and there are no more of them than
      there were events. */
  lemma {:induction false} DedupDistinct(s: seq<Event>)
    ensures DistinctTitles(Dedup(s))
    ensures |Dedup(s)| <= |s|
  {
    if s != [] {
      var p, e := s[..|s| - 1], s[|s| - 1];
      DedupDistinct(p);
      DedupLast(s);
      var d := Dedup(p);
      var i := TitleIndex(d, e.title);
      if i < |d| {
        var r := d[i := e];
        forall a, b | 0 <= a < b < |r| ensures r[a].title != r[b].title {
          assert d[a].title != d[b].title;
        }
      } else {
        var r := d + [e];
        forall a, b | 0 <= a < b < |r| ensures r[a].title != r[b].title {
          if b == |d| {
            assert r[a] == d[a];
          } else {
            assert r[a] == d[a] && r[b] == d[b];
          }
        }
      }
    }
  }

  /** Every title of the input is kept. */
  lemma {:induction false} DedupCovers(s: seq<Event>)
    ensures forall j :: 0 <= j < |s| ==> TitleIndex(Dedup(s), s[j].title) < |Dedup(s)|
  {
    if s != [] {
      var p, e := s[..|s| - 1], s[|s| - 1];
      DedupCovers(p);
      DedupLast(s);
      var d := Dedup(p);
      var r := Dedup(s);
      forall j | 0 <= j < |s| ensures TitleIndex(r, s[j].title) < |r| {
        var t := s[j].title;
        var i := TitleIndex(d, e.title);
        if j == |s| - 1 {
          if i < |d| {
            assert r[i].title == t;
          } else {
            assert r[|d|].title == t;
          }
        } else {
          assert s[j] == p[j];
          var m := TitleIndex(d, t);
          assert m < |d|;
          if i < |d| {
            assert r[m].title == (if m == i then e.title else d[m].title) == t;
          } else {
            assert r[m] == d[m];
          }
        }
      }
    }
  }

  /** Each kept event is the last event of the input with its title. */
  lemma {:induction false} DedupLastWins(s: seq<Event>)
    ensures forall i :: 0 <= i < |Dedup(s)| ==>
      exists j :: 0 <= j < |s| && s[j] == Dedup(s)[i] && LastOfTitle(s, j)
  {
    if s != [] {
      var n := |s| - 1;
      var p, e := s[..n], s[n];
      DedupLastWins(p);
      DedupDistinct(p);
      DedupLast(s);
      var d := Dedup(p);
      var r := Dedup(s);
      var i := TitleIndex(d, e.title);
      forall m | 0 <= m < |r| ensures exists j :: 0 <= j < |s| && s[j] == r[m] && LastOfTitle(s, j) {
        if (i < |d| && m == i) || (i == |d| && m == |d|) {
          assert s[n] == r[m] && LastOfTitle(s, n);
        } else {
          assert m < |d|;
          assert r[m] == d[m];
          var j :| 0 <= j < |p| && p[j] == d[m] && LastOfTitle(p, j);
          assert s[j] == p[j];
          assert e.title != d[m].title by {
            if i < |d| {
              assert d[i].title == e.title;
            }
          }
          forall k | j < k < |s| ensures s[k].title != s[j].title {
            if k < n {
              assert s[k] == p[k];
            }
          }
        }
      }
      assert r == Dedup(s);
      assert forall i :: 0 <= i < |Dedup(s)| ==>
        exists j :: 0 <= j < |s| && s[j] == Dedup(s)[i] && LastOfTitle(s, j);
    } else {
      assert Dedup(s) == [];
    }
  }

  /** The kept events come in the order in which their titles first
      appear, which is what breaks ties in the later stable sort. */
  lemma {:induction false} DedupFirstAppearance(s: seq<Event>)
    ensures forall a :: 0 <= a < |Dedup(s)| ==> TitleIndex(s, Dedup(s)[a].title) < |s|
    ensures forall a, b :: 0 <= a < b < |Dedup(s)| ==>
      TitleIndex(s, Dedup(s)[a].title) < TitleIndex(s, Dedup(s)[b].title)
  {
    if s != [] {
      var n := |s| - 1;
      var p, e := s[..n], s[n];
      assert s == p + [e];
      DedupFirstAppearance(p);
      DedupLast(s);
      var d := Dedup(p);
      var i := TitleIndex(d, e.title);
      forall a | 0 <= a < |d| ensures TitleIndex(s, d[a].title) == TitleIndex(p, d[a].title) < n {
        TitleIndexSnoc(p, e, d[a].title);
      }
      if i < |d| {
        OrderSameTitles(s, d, d[i := e]);
      } else {
        NewTitleIndex(s);
        OrderAppended(s, d, e);
      }
    }
  }

  /** Replacing events by events of the same titles keeps the first
      appearance order. */
  lemma OrderSameTitles(s: seq<Event>, d: seq<Event>, r: seq<Event>)
    requires |r| == |d| && forall a :: 0 <= a < |r| ==> r[a].title == d[a].title
    requires forall a :: 0 <= a < |d| ==> TitleIndex(s, d[a].title) < |s|
    requires forall a, b :: 0 <= a < b < |d| ==> TitleIndex(s, d[a].title) < TitleIndex(s, d[b].title)
    ensures forall a :: 0 <= a < |r| ==> TitleIndex(s, r[a].title) < |s|
    ensures forall a, b :: 0 <= a < b < |r| ==> TitleIndex(s, r[a].title) < TitleIndex(s, r[b].title)
  {
    forall a, b | 0 <= a < b < |r| ensures TitleIndex(s, r[a].title) < TitleIndex(s, r[b].title) {
      assert r[a].title == d[a].title && r[b].title == d[b].title;
    }
  }

  /** An event whose title first appears last can go at the end. */
  lemma OrderAppended(s: seq<Event>, d: seq<Event>, e: Event)
    requires s != [] && TitleIndex(s, e.title) == |s| - 1
    requires forall a :: 0 <= a < |d| ==> TitleIndex(s, d[a].title) < |s| - 1
    requires forall a, b :: 0 <= a < b < |d| ==> TitleIndex(s, d[a].title) < TitleIndex(s, d[b].title)
    ensures forall a :: 0 <= a < |d + [e]| ==> TitleIndex(s, (d + [e])[a].title) < |s|
    ensures forall a, b :: 0 <= a < b < |d + [e]| ==> TitleIndex(s, (d + [e])[a].title) < TitleIndex(s, (d + [e])[b].title)
  {
    var r := d + [e];
    forall a | 0 <= a < |r| ensures TitleIndex(s, r[a].title) < |s| {
      AppendedTitle(s, d, e, a);
    }
    forall a, b | 0 <= a < b < |r| ensures TitleIndex(s, r[a].title) < TitleIndex(s, r[b].title) {
      AppendedTitle(s, d, e, a);
      AppendedTitle(s, d, e, b);
    }
  }

  lemma AppendedTitle(s: seq<Event>, d: seq<Event>, e: Event, a: nat)
    requires a < |d| + 1
    ensures (d + [e])[a].title == if a < |d| then d[a].title else e.title
  {
  }

  /** A title the dictionary does not hold yet has not appeared before. */
  lemma NewTitleIndex(s: seq<Event>)
    requires s != []
    requires TitleIndex(Dedup(s[..|s| - 1]), s[|s| - 1].title) == |Dedup(s[..|s| - 1])|
    ensures TitleIndex(s, s[|s| - 1].title) == |s| - 1
  {
    var n := |s| - 1;
    var p, e := s[..n], s[n];
    assert s == p + [e];
    DedupCovers(p);
    if TitleIndex(p, e.title) < |p| {
      assert false;
    }
    TitleIndexSnoc(p, e, e.title);
  }

  // ---------------------------------------------------------------------
  // `sorted(unique_events, key=lambda x: x['time'])`

  /** Places `x` before the first element whose key is not smaller, as a
      stable sort does for an element that precedes them in the input. */
  function InsertBy<T>(key: T -> int, x: T, s: seq<T>): seq<T>
  {
    if s == [] || key(x) <= key(s[0]) then [x] + s else [s[0]] + InsertBy(key, x, s[1..])
  }

  /** `sorted(s, key=key)`: insertion sort from the back, which is stable. */
  function SortBy<T>(key: T -> int, s: seq<T>): seq<T>
  {
    if s == [] then [] else InsertBy(key, s[0], SortBy(key, s[1..]))
  }

  predicate SortedBy<T>(key: T -> int, s: seq<T>)
  {
    forall i, j :: 0 <= i < j < |s| ==> key(s[i]) <= key(s[j])
  }

  /** The elements of `s` with key `t`, in order. */
  function AtKey<T>(key: T -> int, s: seq<T>, t: int): seq<T>
  {
    if s == [] then [] else (if key(s[0]) == t then [s[0]] else []) + AtKey(key, s[1..], t)
  }

  lemma AtKeyCons<T>(key: T -> int, y: T, s: seq<T>, t: int)
    ensures AtKey(key, [y] + s, t) == (if key(y) == t then [y] else []) + AtKey(key, s, t)
  {
    assert ([y] + s)[1..] == s;
  }

  lemma {:induction false} InsertByPerm<T>(key: T -> int, x: T, s: seq<T>)
    ensures multiset(InsertBy(key, x, s)) == multiset([x]) + multiset(s)
  {
    if !(s == [] || key(x) <= key(s[0])) {
      InsertByPerm(key, x, s[1..]);
      HeadTail(s);
    }
  }

  lemma {:induction false} InsertBySorted<T>(key: T -> int, x: T, s: seq<T>)
    requires SortedBy(key, s)
    ensures SortedBy(key, InsertBy(key, x, s))
  {
    if !(s == [] || key(x) <= key(s[0])) {
      var rest := InsertBy(key, x, s[1..]);
      InsertBySorted(key, x, s[1..]);
      InsertByPerm(key, x, s[1..]);
      var r := [s[0]] + rest;
      forall j | 0 < j < |r| ensures key(s[0]) <= key(r[j]) {
        assert r[j] in multiset(rest);
        assert r[j] == x || r[j] in s[1..];
      }
    }
  }

  lemma {:induction false} InsertByStable<T>(key: T -> int, x: T, s: seq<T>, t: int)
    ensures AtKey(key, InsertBy(key, x, s), t) == AtKey(key, [x], t) + AtKey(key, s, t)
  {
    AtKeyCons(key, x, [], t);
    var hx := if key(x) == t then [x] else [];
    assert AtKey(key, [x], t) == hx + [];
    if s == [] || key(x) <= key(s[0]) {
      AtKeyCons(key, x, s, t);
    } else {
      var tail := AtKey(key, s[1..], t);
      var h0 := if key(s[0]) == t then [s[0]] else [];
      InsertByStable(key, x, s[1..], t);
      AtKeyCons(key, s[0], InsertBy(key, x, s[1..]), t);
      assert AtKey(key, InsertBy(key, x, s), t) == h0 + (hx + tail);
      AtKeyCons(key, s[0], s[1..], t);
      HeadTail(s);
      assert AtKey(key, s, t) == h0 + tail;
      // `x` and `s[0]` have different keys, so at most one of them is kept.
      if hx == [] {
        assert h0 + (hx + tail) == h0 + tail;
      } else {
        assert h0 == [];
      }
    }
  }

  lemma {:induction false} SortByPerm<T>(key: T -> int, s: seq<T>)
    ensures multiset(SortBy(key, s)) == multiset(s)
  {
    if s != [] {
      SortByPerm(key, s[1..]);
      InsertByPerm(key, s[0], SortBy(key, s[1..]));
      HeadTail(s);
    }
  }

  lemma {:induction false} SortBySorted<T>(key: T -> int, s: seq<T>)
    ensures SortedBy(key, SortBy(key, s))
  {
    if s != [] {
      SortBySorted(key, s[1..]);
      InsertBySorted(key, s[0], SortBy(key, s[1..]));
    }
  }

  lemma {:induction false} SortByStable<T>(key: T -> int, s: seq<T>, t: int)
    ensures AtKey(key, SortBy(key, s), t) == AtKey(key, s, t)
  {
    if s != [] {
      SortByStable(key, s[1..], t);
      InsertByStable(key, s[0], SortBy(key, s[1..]), t);
      AtKeyCons(key, s[0], s[1..], t);
      AtKeyCons(key, s[0], [], t);
      HeadTail(s);
    }
  }

  // The instance `key=lambda x: x['time']`.

  function TimeOf(e: Event): int
  {
    e.time
  }

  function SortByTime(s: seq<Event>): seq<Event>
  {
    SortBy(TimeOf, s)
  }

  predicate Chronological(s: seq<Event>)
  {
    forall i, j :: 0 <= i < j < |s| ==> s[i].time <= s[j].time
  }

  /** The events of `s` at instant `t`, in order. */
  function AtTime(s: seq<Event>, t: int): seq<Event>
  {
    if s == [] then [] else (if s[0].time == t then [s[0]] else []) + AtTime(s[1..], t)
  }

  lemma ChronologicalSorted(s: seq<Event>)
    requires SortedBy(TimeOf, s)
    ensures Chronological(s)
  {
    forall i, j | 0 <= i < j < |s| ensures s[i].time <= s[j].time {
      assert TimeOf(s[i]) <= TimeOf(s[j]);
    }
  }

  lemma {:induction false} AtTimeKey(s: seq<Event>, t: int)
    ensures AtKey(TimeOf, s, t) == AtTime(s, t)
  {
    if s != [] {
      AtTimeKey(s[1..], t);
    }
  }

  /** The sorted list is ordered by time, is a permutation of its input,
      and keeps the input order among events at the same instant. */
  lemma SortByTimeSpec(s: seq<Event>)
    ensures Chronological(SortByTime(s))
    ensures multiset(SortByTime(s)) == multiset(s)
    ensures forall t :: AtTime(SortByTime(s), t) == AtTime(s, t)
  {
    SortBySorted(TimeOf, s);
    ChronologicalSorted(SortByTime(s));
    SortByPerm(TimeOf, s);
    forall t ensures AtTime(SortByTime(s), t) == AtTime(s, t) {
      SortByStable(TimeOf, s, t);
      AtTimeKey(s, t);
      AtTimeKey(SortByTime(s), t);
    }
  }
}
