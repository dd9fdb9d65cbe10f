/**
 Exercise 4: group every opportunity's `originalEventTime` by show, sort each
 group, and report a show as weekly, with the label of its earliest time,
 when it has at least two times and all of them share the first one's UTC day
 of week, hour and minute. Nothing checks that consecutive times are seven
 days apart: any two times in the same minute of the week qualify, including
 the same instant twice.
 */
module Weekly {
  import opened Events
  import opened UtcTime
  import opened Labels
  import opened Sorting

  /** The event times of a list of opportunities, in order. */
  function OpportunityTimes(opps: seq<Opportunity>): (ts: seq<int>)
    ensures |ts| == |opps|
  {
    if |opps| == 0 then []
    else OpportunityTimes(opps[..|opps| - 1]) + [opps[|opps| - 1].originalEventTime]
  }

  /** All event times of show `s`, in input order. */
  function ShowTimes(events: seq<DownloadEvent>, s: string): seq<int>
  {
    if |events| == 0 then []
    else
      var e := events[|events| - 1];
      ShowTimes(events[..|events| - 1], s) + (if e.showId == s then OpportunityTimes(e.opportunities) else [])
  }

  /** The list stored under `k`, or the empty list `computeIfAbsent` would create. */
  function TimesOf(m: map<string, seq<int>>, k: string): seq<int>
  {
    if k in m then m[k] else []
  }

  /**
   The inner loop for one event: `computeIfAbsent(k, ...).add(t)` for each
   opportunity. The entry for `k` appears only once some time is added to it,
   and no other entry changes.
   */
  function AddTimes(m: map<string, seq<int>>, k: string, opps: seq<Opportunity>): (r: map<string, seq<int>>)
    ensures forall s :: s != k ==> (s in r <==> s in m)
    ensures forall s :: s != k && s in m ==> r[s] == m[s]
    ensures k in r <==> k in m || |opps| > 0
    ensures k in r ==> r[k] == TimesOf(m, k) + OpportunityTimes(opps)
  {
    if |opps| == 0 then m
    else
      var r := AddTimes(m, k, opps[..|opps| - 1]);
      r[k := TimesOf(r, k) + [opps[|opps| - 1].originalEventTime]]
  }

  /**
   The map `showEventTimes`: a show is present iff it has at least one event
   time, and its list is all its times in input order.
   */
  function EventTimes(events: seq<DownloadEvent>): (times: map<string, seq<int>>)
    ensures forall s :: s in times <==> |ShowTimes(events, s)| > 0
    ensures forall s :: s in times ==> times[s] == ShowTimes(events, s)
  {
    if |events| == 0 then map[]
    else
      var e := events[|events| - 1];
      AddTimes(EventTimes(events[..|events| - 1]), e.showId, e.opportunities)
  }

  /** Every time after the first falls in the first one's slot iff all fall in the same minute of the week. */
  lemma SameSlotAsFirstIffSameMinute(times: seq<int>)
    requires |times| > 0
    ensures (forall i :: 1 <= i < |times| ==> SlotAt(times[i]) == SlotAt(times[0]))
        <==> (forall i, j :: 0 <= i < |times| && 0 <= j < |times| ==> MinuteOfWeek(times[i]) == MinuteOfWeek(times[j]))
  {
    forall i | 0 <= i < |times|
      ensures SlotAt(times[i]) == SlotAt(times[0]) <==> MinuteOfWeek(times[i]) == MinuteOfWeek(times[0])
    {
      SameSlotIffSameMinuteOfWeek(times[i], times[0]);
    }
  }

  /**
   `isWeekly`: at least two times, every one in the first one's UTC slot; the
   same as at least two times that all fall in one minute of the week.
   */
  function IsWeekly(times: seq<int>): (r: bool)
    ensures r <==> (|times| >= 2
      && forall i, j :: 0 <= i < |times| && 0 <= j < |times| ==> MinuteOfWeek(times[i]) == MinuteOfWeek(times[j]))
  {
    if |times| < 2 then false
    else
      SameSlotAsFirstIffSameMinute(times);
      forall i :: 1 <= i < |times| ==> SlotAt(times[i]) == SlotAt(times[0])
  }

  /** The classification does not depend on the order of the times. */
  lemma IsWeeklyPermutation(a: seq<int>, b: seq<int>)
    requires multiset(a) == multiset(b)
    ensures IsWeekly(a) == IsWeekly(b)
  {
    assert |a| == |multiset(a)| == |multiset(b)| == |b|;
    if IsWeekly(a) {
      SameMinuteCarriesOver(a, b);
    }
    if IsWeekly(b) {
      SameMinuteCarriesOver(b, a);
    }
  }

  /** If all of `a` lies in one minute of the week, so does any rearrangement of it. */
  lemma SameMinuteCarriesOver(a: seq<int>, b: seq<int>)
    requires multiset(a) == multiset(b)
    requires forall i, j :: 0 <= i < |a| && 0 <= j < |a| ==> MinuteOfWeek(a[i]) == MinuteOfWeek(a[j])
    ensures forall i, j :: 0 <= i < |b| && 0 <= j < |b| ==> MinuteOfWeek(b[i]) == MinuteOfWeek(b[j])
  {
    forall i, j | 0 <= i < |b| && 0 <= j < |b|
      ensures MinuteOfWeek(b[i]) == MinuteOfWeek(b[j])
    {
      assert b[i] in multiset(a) && b[j] in multiset(a);
      var x :| 0 <= x < |a| && a[x] == b[i];
      var y :| 0 <= y < |a| && a[y] == b[j];
    }
  }

  /** Every time of a weekly list carries the same label, so any of them could serve as reference. */
  lemma WeeklyLabelIndependentOfReference(times: seq<int>)
    requires IsWeekly(times)
    ensures forall i, j :: 0 <= i < |times| && 0 <= j < |times| ==> FormatEventTime(times[i]) == FormatEventTime(times[j])
  {
    forall i, j | 0 <= i < |times| && 0 <= j < |times|
      ensures FormatEventTime(times[i]) == FormatEventTime(times[j])
    {
      SameSlotIffSameMinuteOfWeek(times[i], times[j]);
      SameLabelIffSameSlot(times[i], times[j]);
    }
  }

  /** A list of fewer than two times is never weekly. */
  lemma ShortListNotWeekly(times: seq<int>)
    requires |times| < 2
    ensures !IsWeekly(times)
  {
  }

  /** Two times any whole number of weeks apart, zero included, make a weekly pair. */
  lemma AnyWholeWeeksApartIsWeekly(t: int, n: int)
    ensures IsWeekly([t, t + n * MillisPerWeek])
  {
    SlotRepeatsWeekly(t, n);
    SameSlotIffSameMinuteOfWeek(t + n * MillisPerWeek, t);
  }

  /** Two times one minute apart are not a weekly pair. */
  lemma OneMinuteApartNotWeekly(t: int)
    ensures !IsWeekly([t, t + MillisPerMinute])
  {
    var pair := [t, t + MillisPerMinute];
    var q := t / MillisPerMinute;
    assert (t + MillisPerMinute) / MillisPerMinute == q + 1;
    assert MinuteOfWeek(pair[1]) != MinuteOfWeek(pair[0]);
  }

  /** `Collections.sort` on a list of `Long`: the natural ascending order. */
  function Ascending(t: int): int
  {
    t
  }

  /**
   Sorting a show's times changes neither the verdict nor, for a weekly list,
   the label: element 0 of the sorted list labels like every original time.
   */
  lemma SortedTimesFacts(ts: seq<int>)
    ensures IsWeekly(SortBy(ts, Ascending)) == IsWeekly(ts)
    ensures IsWeekly(ts) ==> forall i :: 0 <= i < |ts| ==> FormatEventTime(SortBy(ts, Ascending)[0]) == FormatEventTime(ts[i])
  {
    var sorted := SortBy(ts, Ascending);
    IsWeeklyPermutation(sorted, ts);
    if IsWeekly(ts) {
      assert sorted[0] in multiset(ts);
      var k :| 0 <= k < |ts| && ts[k] == sorted[0];
      WeeklyLabelIndependentOfReference(ts);
    }
  }

  /** `SortedTimesFacts` for the list of every show in `showEventTimes`. */
  lemma EventTimesSortedFacts(events: seq<DownloadEvent>)
    ensures forall s :: s in EventTimes(events) ==>
      IsWeekly(SortBy(EventTimes(events)[s], Ascending)) == IsWeekly(ShowTimes(events, s))
    ensures forall s, i :: s in EventTimes(events) && IsWeekly(ShowTimes(events, s)) && 0 <= i < |ShowTimes(events, s)| ==>
      FormatEventTime(SortBy(EventTimes(events)[s], Ascending)[0]) == FormatEventTime(ShowTimes(events, s)[i])
  {
    forall s | s in EventTimes(events)
      ensures IsWeekly(SortBy(EventTimes(events)[s], Ascending)) == IsWeekly(ShowTimes(events, s))
      ensures IsWeekly(ShowTimes(events, s)) ==> forall i :: 0 <= i < |ShowTimes(events, s)| ==>
        FormatEventTime(SortBy(EventTimes(events)[s], Ascending)[0]) == FormatEventTime(ShowTimes(events, s)[i])
    {
      SortedTimesFacts(ShowTimes(events, s));
    }
  }

  /**
   The map `weeklyShows`: each show whose sorted times are weekly, with the
   label of the earliest. A show is reported iff its times, in any order, are
   weekly, and its label is the label of each of its times.
   */
  function WeeklyShows(events: seq<DownloadEvent>): (weekly: map<string, string>)
    ensures forall s :: s in weekly <==> IsWeekly(ShowTimes(events, s))
    ensures forall s, i :: s in weekly && 0 <= i < |ShowTimes(events, s)| ==>
      weekly[s] == FormatEventTime(ShowTimes(events, s)[i])
  {
    var times := EventTimes(events);
    EventTimesSortedFacts(events);
    map s | s in times && IsWeekly(SortBy(times[s], Ascending)) :: FormatEventTime(SortBy(times[s], Ascending)[0])
  }
}
