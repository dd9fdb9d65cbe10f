/**
 Exercises 1 and 2: the most downloaded show among events from San Francisco
 (city compared ignoring case) and the most used device type over all events.
 Both run the `put(k, getOrDefault(k, 0) + 1)` loop over the kept events and
 then pick a maximal entry with `MaxByValue`.
 */
module Popularity {
  import opened Wrappers
  import opened Events
  import opened Ascii
  import opened Frequency

  const SanFrancisco: string := "san francisco"
  /** The exception message of exercise 1. */
  const NoDataFound: string := "No data found"
  /** The exception message of exercise 2 (Romanian for "no data found"). */
  const NoDataFoundRo: string := "Nu s-au g\U{0103}sit date"

  function ShowIdOf(e: DownloadEvent): string { e.showId }
  function DeviceTypeOf(e: DownloadEvent): string { e.deviceType }

  /** The filter of exercise 1: `"san francisco".equalsIgnoreCase(city)`. */
  predicate InSanFrancisco(e: DownloadEvent)
  {
    EqualsIgnoreCase(SanFrancisco, e.city)
  }

  /** The literal is already lower case, so a city passes the filter iff lowering it gives the literal. */
  lemma InSanFranciscoIffLowerCity(e: DownloadEvent)
    ensures InSanFrancisco(e) <==> Lower(e.city) == SanFrancisco
  {
    assert Lower(SanFrancisco) == SanFrancisco;
    EqualsIgnoreCaseLowerConstant(SanFrancisco, e.city);
  }

  /** The filter of exercise 2, which keeps every event. */
  predicate Always(e: DownloadEvent)
  {
    true
  }

  /** The keys of the kept events, in input order: the sequence of increments the loop performs. */
  function KeysWhere(events: seq<DownloadEvent>, key: DownloadEvent -> string, keep: DownloadEvent -> bool): seq<string>
  {
    if |events| == 0 then []
    else
      var e := events[|events| - 1];
      KeysWhere(events[..|events| - 1], key, keep) + (if keep(e) then [key(e)] else [])
  }

  /** The number of kept events whose key is `k`. */
  function CountWhere(events: seq<DownloadEvent>, key: DownloadEvent -> string, keep: DownloadEvent -> bool, k: string): nat
  {
    if |events| == 0 then 0
    else
      var e := events[|events| - 1];
      CountWhere(events[..|events| - 1], key, keep, k) + (if keep(e) && key(e) == k then 1 else 0)
  }

  /** A key is counted once per kept event that carries it. */
  lemma {:induction false} KeysWhereOccurrences(events: seq<DownloadEvent>, key: DownloadEvent -> string, keep: DownloadEvent -> bool)
    ensures forall k :: multiset(KeysWhere(events, key, keep))[k] == CountWhere(events, key, keep, k)
  {
    if |events| > 0 {
      KeysWhereOccurrences(events[..|events| - 1], key, keep);
    }
  }

  /** A key has a positive count iff some kept event carries it. */
  lemma {:induction false} CountWherePositive(events: seq<DownloadEvent>, key: DownloadEvent -> string, keep: DownloadEvent -> bool, k: string)
    ensures CountWhere(events, key, keep, k) > 0 <==> exists i :: 0 <= i < |events| && keep(events[i]) && key(events[i]) == k
  {
    if |events| > 0 {
      var init := events[..|events| - 1];
      CountWherePositive(init, key, keep, k);
      if exists i :: 0 <= i < |init| && keep(init[i]) && key(init[i]) == k {
        var i :| 0 <= i < |init| && keep(init[i]) && key(init[i]) == k;
        assert events[i] == init[i];
      }
      if exists i :: 0 <= i < |events| && keep(events[i]) && key(events[i]) == k {
        var i :| 0 <= i < |events| && keep(events[i]) && key(events[i]) == k;
        if i < |init| {
          assert init[i] == events[i];
        }
      }
    }
  }

  /** With the filter that keeps everything, one key is produced per event. */
  lemma {:induction false} KeysWhereAlwaysLength(events: seq<DownloadEvent>, key: DownloadEvent -> string)
    ensures |KeysWhere(events, key, Always)| == |events|
  {
    if |events| > 0 {
      KeysWhereAlwaysLength(events[..|events| - 1], key);
    }
  }

  /**
   The `put(k, getOrDefault(k, 0) + 1)` loop over the kept events: the map from
   each key to the number of kept events carrying it; a key is present iff that
   number is positive.
   */
  function CountBy(events: seq<DownloadEvent>, key: DownloadEvent -> string, keep: DownloadEvent -> bool): (counts: map<string, nat>)
    ensures forall k :: k in counts <==> CountWhere(events, key, keep, k) > 0
    ensures forall k :: k in counts ==> counts[k] == CountWhere(events, key, keep, k)
  {
    KeysWhereOccurrences(events, key, keep);
    Tally(KeysWhere(events, key, keep))
  }

  /** The count map is empty iff the filter keeps no event. */
  lemma CountByEmpty(events: seq<DownloadEvent>, key: DownloadEvent -> string, keep: DownloadEvent -> bool)
    ensures |CountBy(events, key, keep)| == 0 <==> forall i :: 0 <= i < |events| ==> !keep(events[i])
  {
    var counts := CountBy(events, key, keep);
    if |counts| == 0 {
      forall i | 0 <= i < |events|
        ensures !keep(events[i])
      {
        CountWherePositive(events, key, keep, key(events[i]));
        assert key(events[i]) !in counts;
      }
    } else {
      var k :| k in counts;
      CountWherePositive(events, key, keep, k);
    }
  }

  /** A key is in the count map iff some kept event carries it. */
  lemma CountByKeys(events: seq<DownloadEvent>, key: DownloadEvent -> string, keep: DownloadEvent -> bool)
    ensures forall k :: k in CountBy(events, key, keep) <==> exists i :: 0 <= i < |events| && keep(events[i]) && key(events[i]) == k
  {
    forall k
      ensures k in CountBy(events, key, keep) <==> exists i :: 0 <= i < |events| && keep(events[i]) && key(events[i]) == k
    {
      CountWherePositive(events, key, keep, k);
    }
  }

  /**
   Exercise 1's map `showDownloadCount`: the shows with an event from San
   Francisco, each with its number of such events.
   */
  function ShowCountsInSanFrancisco(events: seq<DownloadEvent>): (counts: map<string, nat>)
    ensures forall s :: s in counts <==>
      exists i :: 0 <= i < |events| && events[i].showId == s && EqualsIgnoreCase(SanFrancisco, events[i].city)
    ensures forall s :: s in counts ==> counts[s] == CountWhere(events, ShowIdOf, InSanFrancisco, s) >= 1
  {
    CountByKeys(events, ShowIdOf, InSanFrancisco);
    CountBy(events, ShowIdOf, InSanFrancisco)
  }

  /** An event from another city leaves exercise 1's counts unchanged. */
  lemma OtherCityAddsNothing(events: seq<DownloadEvent>, e: DownloadEvent)
    requires !InSanFrancisco(e)
    ensures ShowCountsInSanFrancisco(events + [e]) == ShowCountsInSanFrancisco(events)
  {
    assert (events + [e])[..|events|] == events;
  }

  /** An event from San Francisco adds one to its own show's count and changes no other. */
  lemma SanFranciscoEventAddsOne(events: seq<DownloadEvent>, e: DownloadEvent)
    requires InSanFrancisco(e)
    ensures ShowCountsInSanFrancisco(events + [e]) == Bump(ShowCountsInSanFrancisco(events), e.showId)
  {
    assert (events + [e])[..|events|] == events;
  }

  /** Exercise 2's map `deviceDownloadCount`: every device type that occurs, with its number of events. */
  function DeviceCounts(events: seq<DownloadEvent>): (counts: map<string, nat>)
    ensures forall d :: d in counts <==> exists i :: 0 <= i < |events| && events[i].deviceType == d
    ensures forall d :: d in counts ==> counts[d] == CountWhere(events, DeviceTypeOf, Always, d) >= 1
  {
    CountByKeys(events, DeviceTypeOf, Always);
    CountBy(events, DeviceTypeOf, Always)
  }

  /** Every event increments exactly one device type, so the counts sum to the number of events. */
  lemma DeviceCountsTotal(events: seq<DownloadEvent>)
    ensures Total(DeviceCounts(events)) == |events|
  {
    KeysWhereAlwaysLength(events, DeviceTypeOf);
    TallyTotal(KeysWhere(events, DeviceTypeOf, Always));
  }

  /**
   Exercise 1: a show with the most San Francisco downloads and that number;
   "No data found" when no event is from San Francisco.
   */
  method MostPopularShowInSanFrancisco(events: seq<DownloadEvent>) returns (r: Result<(string, nat), string>)
    ensures r.Failure? <==> forall i :: 0 <= i < |events| ==> !EqualsIgnoreCase(SanFrancisco, events[i].city)
    ensures r.Failure? ==> r.error == NoDataFound
    ensures r.Success? ==> r.value.1 == CountWhere(events, ShowIdOf, InSanFrancisco, r.value.0) >= 1
    ensures r.Success? ==> forall s :: CountWhere(events, ShowIdOf, InSanFrancisco, s) <= r.value.1
  {
    var counts := ShowCountsInSanFrancisco(events);
    CountByEmpty(events, ShowIdOf, InSanFrancisco);
    r := MaxByValue(counts, NoDataFound);
  }

  /**
   Exercise 2: a device type used by the most events and that number; the
   Romanian "no data found" message when there are no events.
   */
  method MostUsedDevice(events: seq<DownloadEvent>) returns (r: Result<(string, nat), string>)
    ensures r.Failure? <==> |events| == 0
    ensures r.Failure? ==> r.error == NoDataFoundRo
    ensures r.Success? ==> r.value.1 == CountWhere(events, DeviceTypeOf, Always, r.value.0) >= 1
    ensures r.Success? ==> forall d :: CountWhere(events, DeviceTypeOf, Always, d) <= r.value.1
  {
    var counts := DeviceCounts(events);
    CountByEmpty(events, DeviceTypeOf, Always);
    r := MaxByValue(counts, NoDataFoundRo);
  }
}
