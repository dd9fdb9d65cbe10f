/**
 Exercise 3: per show, the number of `"preroll"` elements over the
 `adBreakIndex` arrays of its events' opportunities, listed from the largest
 count to the smallest. An opportunity whose array names `"preroll"` twice
 counts twice; one without an array counts nothing.
 */
module Preroll {
  import opened Wrappers
  import opened Events
  import opened Frequency
  import opened Sorting

  const PrerollTag: string := "preroll"

  /** The number of `"preroll"` elements in an `adBreakIndex` array, counted in array order. */
  function PrerollsIn(tags: seq<string>): nat
  {
    if |tags| == 0 then 0
    else PrerollsIn(tags[..|tags| - 1]) + (if tags[|tags| - 1] == PrerollTag then 1 else 0)
  }

  /** The loop's count is the number of occurrences of the tag in the array. */
  lemma {:induction false} PrerollsInOccurrences(tags: seq<string>)
    ensures PrerollsIn(tags) == multiset(tags)[PrerollTag]
  {
    if |tags| > 0 {
      PrerollsInOccurrences(tags[..|tags| - 1]);
      assert tags == tags[..|tags| - 1] + [tags[|tags| - 1]];
    }
  }

  /**
   The preroll count of one opportunity: zero when `adBreakIndex` is null,
   missing or not an array, otherwise the occurrences of the tag in the array.
   */
  function OpportunityPrerolls(o: Opportunity): (n: nat)
    ensures o.adBreakIndex.None? ==> n == 0
    ensures o.adBreakIndex.Some? ==> n == multiset(o.adBreakIndex.value)[PrerollTag]
  {
    match o.adBreakIndex
    case None => 0
    case Some(tags) =>
      PrerollsInOccurrences(tags);
      PrerollsIn(tags)
  }

  /**
   Worked examples of `OpportunityPrerolls` on fixed inputs: a repeated tag
   counts once per occurrence; an array without the tag, or no array, counts nothing.
   */
  lemma OpportunityPrerollsExamples()
    ensures OpportunityPrerolls(Opportunity(0, Some([PrerollTag, "midroll", PrerollTag]))) == 2
    ensures OpportunityPrerolls(Opportunity(0, Some(["midroll"]))) == 0
    ensures OpportunityPrerolls(Opportunity(0, None)) == 0
  {
    var tags := [PrerollTag, "midroll", PrerollTag];
    PrerollsInOccurrences(tags);
    PrerollsInOccurrences(["midroll"]);
    assert "midroll" != PrerollTag by {
      assert "midroll"[0] != PrerollTag[0];
    }
  }

  /** The preroll count of a list of opportunities. */
  function OpportunitiesPrerolls(opps: seq<Opportunity>): nat
  {
    if |opps| == 0 then 0
    else OpportunitiesPrerolls(opps[..|opps| - 1]) + OpportunityPrerolls(opps[|opps| - 1])
  }

  /** The preroll count of the events of show `s`. */
  function ShowPrerolls(events: seq<DownloadEvent>, s: string): nat
  {
    if |events| == 0 then 0
    else
      var e := events[|events| - 1];
      ShowPrerolls(events[..|events| - 1], s) + (if e.showId == s then OpportunitiesPrerolls(e.opportunities) else 0)
  }

  /** The preroll count of all events. */
  function AllPrerolls(events: seq<DownloadEvent>): nat
  {
    if |events| == 0 then 0
    else AllPrerolls(events[..|events| - 1]) + OpportunitiesPrerolls(events[|events| - 1].opportunities)
  }

  /** `n` copies of `k`. */
  function Repeat(k: string, n: nat): (r: seq<string>)
    ensures |r| == n
    ensures forall s :: multiset(r)[s] == if s == k then n else 0
  {
    if n == 0 then [] else Repeat(k, n - 1) + [k]
  }

  /**
   The keys the nested loops increment, in order: each event's show id once per
   `"preroll"` element of each of its opportunities.
   */
  function PrerollKeys(events: seq<DownloadEvent>): seq<string>
  {
    if |events| == 0 then []
    else
      var e := events[|events| - 1];
      PrerollKeys(events[..|events| - 1]) + Repeat(e.showId, OpportunitiesPrerolls(e.opportunities))
  }

  lemma {:induction false} PrerollKeysOccurrences(events: seq<DownloadEvent>)
    ensures forall s :: multiset(PrerollKeys(events))[s] == ShowPrerolls(events, s)
    ensures |PrerollKeys(events)| == AllPrerolls(events)
  {
    if |events| > 0 {
      PrerollKeysOccurrences(events[..|events| - 1]);
    }
  }

  /**
   The map of exercise 3: a show is present iff its events hold at least one
   preroll, and its count is the number they hold.
   */
  function PrerollCounts(events: seq<DownloadEvent>): (counts: map<string, nat>)
    ensures forall s :: s in counts <==> ShowPrerolls(events, s) > 0
    ensures forall s :: s in counts ==> counts[s] == ShowPrerolls(events, s)
  {
    PrerollKeysOccurrences(events);
    Tally(PrerollKeys(events))
  }

  /** The per-show counts sum to the number of prerolls over all events. */
  lemma PrerollCountsTotal(events: seq<DownloadEvent>)
    ensures Total(PrerollCounts(events)) == AllPrerolls(events)
  {
    PrerollKeysOccurrences(events);
    TallyTotal(PrerollKeys(events));
  }

  /** The sort key of `(a, b) -> b.getValue().compareTo(a.getValue())`: larger counts first. */
  function Descending(p: (string, nat)): int
  {
    -(p.1 as int)
  }

  /**
   The list exercise 3 reports: each show with a preroll exactly once, paired
   with its preroll count, counts never increasing along the list.
   */
  method SortedPrerollCounts(events: seq<DownloadEvent>) returns (list: seq<(string, nat)>)
    ensures |list| == |PrerollCounts(events)|
    ensures forall p :: p in list <==> ShowPrerolls(events, p.0) == p.1 > 0
    ensures forall i, j :: 0 <= i < j < |list| ==> list[i].1 >= list[j].1
  {
    var counts := PrerollCounts(events);
    var entries := EntryList(counts);
    list := SortBy(entries, Descending);
    SortByMembers(entries, Descending);
    assert forall i, j :: 0 <= i < j < |list| ==> Descending(list[i]) <= Descending(list[j]);
  }
}
