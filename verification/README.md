# Download-event aggregations, modelled in Dafny

The repository is a JUnit class, `TestSuiteFile`, with four exercises. Each one reads a
file of line-delimited JSON download events and computes a small aggregate:

1. the show downloaded most often from San Francisco (city compared ignoring case);
2. the device type used most often;
3. per show, the number of `"preroll"` entries in its opportunities' `adBreakIndex`
   arrays, listed from most to fewest;
4. the shows whose opportunity times all fall on the same UTC day of week, hour and
   minute ("weekly" shows), each with a label such as `MON 20:00`.

This project models the computation after parsing. The input is a sequence of typed
`DownloadEvent` records (module `Events`). The counting loops are folds over that
sequence. The map lookups and updates (`getOrDefault`, `computeIfAbsent`) are Dafny map
operations. Where the source depends on `HashMap` iteration order (the argmax and the
entry list before sorting), the model picks keys nondeterministically, so its
contracts hold for every iteration order.

Modules, one per component:

- `Wrappers`: `Option` and `Result`.
- `Events`: the record types.
- `Ascii`: `equalsIgnoreCase`.
- `Frequency`: the count map, the argmax and the entry list.
- `Sorting`: the two sorts.
- `UtcTime`: converts epoch milliseconds to the UTC day of week, hour and minute.
- `Labels`: `formatEventTime`, plus a parser used as its inverse.
- `Popularity`: exercises 1 and 2.
- `Preroll`: exercise 3.
- `Weekly`: exercise 4.

Points of behaviour worth knowing:

- Preroll counting is per array element, not per opportunity. An opportunity whose
  array lists `"preroll"` twice counts twice (`Preroll.PrerollsInOccurrences`).
- The comment on `formatEventTime` shows `Mon 20:00`. `DayOfWeek.name()` is upper case,
  so the label is `MON 20:00` (`Labels.FormatEventTime`).
- `showId` and `deviceType` may be any string, the empty one included. The code never
  checks them.

## Model

| member | source | states |
|---|---|---|
| Ascii.CharsMatchIffLowerEqual | src/test/java/TestSuiteFile.java:38 | Under ASCII folding, the character rule of `regionMatches` (equal, equal upper-cased, or equal lowered after upper-casing) holds iff the lower-case forms are equal. |
| Ascii.EqualsIgnoreCase | src/test/java/TestSuiteFile.java:38 | `equalsIgnoreCase` (same length, and every character pair matching by the `regionMatches` rule) holds iff the two lower-case forms are equal. |
| Ascii.Lower | src/test/java/TestSuiteFile.java:38 | Lower-casing leaves no ASCII upper-case letter in the string. |
| Ascii.LowerIdempotent | src/test/java/TestSuiteFile.java:38 | Lowering an already lowered string changes nothing. |
| Ascii.EqualsIgnoreCaseLowerConstant | src/test/java/TestSuiteFile.java:38 | Compared with the lower-case constant "san francisco", a city matches iff lowering it yields that constant. |
| Frequency.Tally | src/test/java/TestSuiteFile.java:40 | After `put(k, getOrDefault(k, 0) + 1)` for each key in turn, a key is present iff it occurred. Its count is its number of occurrences, which is at least 1. |
| Frequency.TallyTotal | src/test/java/TestSuiteFile.java:75-81 | Each key adds exactly one increment, so the counts sum to the number of keys. |
| Frequency.MaxByValue | src/test/java/TestSuiteFile.java:45-48 | `max(comparingByValue())` fails with the given message iff the map is empty. Otherwise it returns an existing entry whose count is at least every other count, for any iteration order. |
| Frequency.EntryList | src/test/java/TestSuiteFile.java:131 | The list built from `entrySet()` holds each entry of the map exactly once. |
| Sorting.SortBy | src/test/java/TestSuiteFile.java:132 | The sorted list is a permutation of its input, and its keys never decrease. |
| Sorting.SortedHeadIsLeast | src/test/java/TestSuiteFile.java:168-172 | After `Collections.sort`, element 0 is an element of the original list and is no later than any of them. |
| UtcTime.DayOfWeekAt | src/test/java/TestSuiteFile.java:192 | The UTC weekday (computed as `floorMod(epochDay + 3, 7)`) has as ordinal the number of whole days the instant's minute of the week lies past Monday 00:00. |
| UtcTime.HourAt | src/test/java/TestSuiteFile.java:193 | The UTC hour of any instant lies in 0..23. It is the whole hours into the day of the instant's minute of the week. |
| UtcTime.MinuteAt | src/test/java/TestSuiteFile.java:194 | The UTC minute of any instant lies in 0..59. It is the instant's minute of the week modulo 60. |
| UtcTime.SlotAt | src/test/java/TestSuiteFile.java:212-214 | The (day of week, hour, minute) read at lines 191-194 is a valid slot. It is the slot named by the instant's minute of the week, counted from Monday 00:00. |
| UtcTime.SlotMinuteRoundTrip | src/test/java/TestSuiteFile.java:191-194 | A (day, hour, minute) triple and a minute of the week convert into each other without loss. |
| UtcTime.SameSlotIffSameMinuteOfWeek | src/test/java/TestSuiteFile.java:200-202 | Two instants agree on day of week, hour and minute iff they fall in the same minute of the week. |
| UtcTime.SlotRepeatsWeekly | src/test/java/TestSuiteFile.java:212-214 | Shifting an instant by any whole number of weeks keeps its day of week, hour and minute. |
| UtcTime.EpochIsThursdayMidnight | src/test/java/TestSuiteFile.java:213 | Instant 0 is Thursday 00:00 UTC. |
| Labels.Name | src/test/java/TestSuiteFile.java:219 | `DayOfWeek.name()` is six to nine upper-case letters, so `substring(0, 3)` never fails. |
| Labels.Abbrev | src/test/java/TestSuiteFile.java:219 | `name().substring(0, 3)` is three upper-case letters. |
| Labels.AbbrevRoundTrip | src/test/java/TestSuiteFile.java:219 | The seven abbreviations are distinct, and each reads back as its own day. |
| Labels.Pad2 | src/test/java/TestSuiteFile.java:219 | `%02d` of a number below 100 is two digits whose decimal value is the number. |
| Labels.FormatEventTime | src/test/java/TestSuiteFile.java:217-220 | The label has 9 characters: 3 upper-case letters naming the UTC weekday, a space, a 2-digit hour below 24, a colon, and a 2-digit minute below 60. |
| Labels.ParseFormatSlot | src/test/java/TestSuiteFile.java:219 | Parsing a formatted label gives back the day, hour and minute it was made from. |
| Labels.FormatParsedLabel | src/test/java/TestSuiteFile.java:219 | Any string that parses as a label is exactly the formatted form of what it parses to. |
| Labels.SameLabelIffSameSlot | src/test/java/TestSuiteFile.java:217-220 | Two instants get the same label iff they share their UTC day of week, hour and minute. |
| Popularity.KeysWhereOccurrences | src/test/java/TestSuiteFile.java:31-42 | Each key is incremented once per kept event that carries it. |
| Popularity.CountWherePositive | src/test/java/TestSuiteFile.java:31-42 | A key's count is positive iff some kept event carries that key. |
| Popularity.KeysWhereAlwaysLength | src/test/java/TestSuiteFile.java:75-81 | With no filter, one increment is made per event. |
| Popularity.CountBy | src/test/java/TestSuiteFile.java:31-42 | A key is in the count map iff some kept event carries it, and its value is the number of kept events carrying it. |
| Popularity.CountByEmpty | src/test/java/TestSuiteFile.java:45-48 | The count map is empty iff the filter keeps no event. |
| Popularity.InSanFranciscoIffLowerCity | src/test/java/TestSuiteFile.java:38 | An event passes the filter at line 38 iff its city, lower-cased, is exactly "san francisco". |
| Popularity.CountByKeys | src/test/java/TestSuiteFile.java:31-42 | A key is in the count map iff some kept event carries it. |
| Popularity.ShowCountsInSanFrancisco | src/test/java/TestSuiteFile.java:28-42 | `showDownloadCount` holds exactly the shows with an event whose city is "san francisco" ignoring case. Each value is the number of such events for that show, at least 1. |
| Popularity.OtherCityAddsNothing | src/test/java/TestSuiteFile.java:37-41 | An event whose city is not San Francisco, ignoring case, leaves exercise 1's counts unchanged. |
| Popularity.SanFranciscoEventAddsOne | src/test/java/TestSuiteFile.java:38-40 | An event from San Francisco adds one to its own show's count and changes no other count. |
| Popularity.DeviceCounts | src/test/java/TestSuiteFile.java:72-81 | `deviceDownloadCount` holds exactly the device types that occur. Each value is that type's number of events, at least 1. |
| Popularity.DeviceCountsTotal | src/test/java/TestSuiteFile.java:75-81 | The device counts sum to the number of events. |
| Popularity.MostPopularShowInSanFrancisco | src/test/java/TestSuiteFile.java:31-48 | Fails with "No data found" iff no event is from San Francisco. Otherwise it returns a show and its number of San Francisco events, which is at least 1 and no smaller than any other show's number. |
| Popularity.MostUsedDevice | src/test/java/TestSuiteFile.java:75-87 | Fails with the Romanian "no data found" message iff there are no events. Otherwise it returns a device type and its number of events, which no other device type exceeds. |
| Preroll.PrerollsInOccurrences | src/test/java/TestSuiteFile.java:119-125 | The count for one array is the number of `"preroll"` occurrences in it, duplicates included. |
| Preroll.OpportunityPrerolls | src/test/java/TestSuiteFile.java:116-126 | One opportunity contributes 0 when `adBreakIndex` is missing, null or not an array. Otherwise it contributes the number of occurrences of `"preroll"` in the array. |
| Preroll.OpportunityPrerollsExamples | src/test/java/TestSuiteFile.java:116-126 | Worked examples on fixed inputs: an array listing `"preroll"` twice counts 2, an array without it counts 0, and no array counts 0. |
| Preroll.PrerollKeysOccurrences | src/test/java/TestSuiteFile.java:108-128 | Each show is incremented once per preroll in its events, and the number of increments is the total number of prerolls. |
| Preroll.PrerollCounts | src/test/java/TestSuiteFile.java:105-128 | A show is in the map iff its events hold at least one preroll, and its value is that number. |
| Preroll.PrerollCountsTotal | src/test/java/TestSuiteFile.java:105-128 | The per-show counts sum to the number of prerolls over all events. |
| Preroll.SortedPrerollCounts | src/test/java/TestSuiteFile.java:130-132 | The reported list holds each show that has a preroll exactly once, paired with its count, and the counts never increase along the list. |
| Weekly.AddTimes | src/test/java/TestSuiteFile.java:157-160 | For one event, its show's list gains that event's times in order. The entry appears only once a time is added, and no other show changes. |
| Weekly.EventTimes | src/test/java/TestSuiteFile.java:147-161 | A show is in `showEventTimes` iff it has at least one opportunity time, and its list is all those times in input order. |
| Weekly.SameSlotAsFirstIffSameMinute | src/test/java/TestSuiteFile.java:191-205 | Matching the first time's day, hour and minute, for every later time, is the same as all times falling in one minute of the week. |
| Weekly.IsWeekly | src/test/java/TestSuiteFile.java:185-209 | `isWeekly` is true iff there are at least two times and all of them fall in the same minute of the week. |
| Weekly.IsWeeklyPermutation | src/test/java/TestSuiteFile.java:168-170 | The classification does not depend on the order of the times, so sorting first does not change it. |
| Weekly.WeeklyLabelIndependentOfReference | src/test/java/TestSuiteFile.java:172 | In a weekly list every time gives the same label, so the choice of reference element does not matter. |
| Weekly.ShortListNotWeekly | src/test/java/TestSuiteFile.java:186-188 | A list of fewer than two times is never weekly. |
| Weekly.AnyWholeWeeksApartIsWeekly | src/test/java/TestSuiteFile.java:196-205 | Two times any whole number of weeks apart, including zero weeks, form a weekly pair. No 7-day gap is checked. |
| Weekly.OneMinuteApartNotWeekly | src/test/java/TestSuiteFile.java:200-203 | Two times one minute apart do not form a weekly pair. |
| Weekly.SortedTimesFacts | src/test/java/TestSuiteFile.java:168-172 | Sorting a show's times does not change the verdict. For a weekly list, element 0 of the sorted list gives the same label as every original time. |
| Weekly.WeeklyShows | src/test/java/TestSuiteFile.java:164-175 | A show is in `weeklyShows` iff its times, in any order, are weekly. Its label is the label of each of its times, in particular of the earliest. |

## Left out

- Reading the file (`Files.readAllLines` with the fixed `filePath`): file I/O. The model takes the records as a parameter.
- Jackson parsing and JSON-tree navigation: a foreign library. The records are typed. A missing `downloadIdentifier`, `showId`, `city`, `deviceType`, `opportunities`, `positionUrlSegments` or `originalEventTime` makes the source throw a `NullPointerException`. A typed record cannot lack these fields, so that failure is not modelled.
- `adBreakIndex` that is missing, null or not an array is one case, `None`. Array elements are modelled as the text `asText()` gives them.
- `asLong()` on a non-numeric `originalEventTime`: part of the JSON library's conversions; times are integers here.
- `assertEquals` against the bundled dataset (24 downloads, "mobiles & tablets" with 60): the data file is not part of this model.
- Printing the results (`System.out.println`): output only.
- `getShowNameById`: a stub with one hard-coded entry, used only in the assertion and the printout.
- Which entry `max` returns among equal maxima, and the order of ties after the sort: both depend on `HashMap` iteration order, which Java does not specify. The model leaves both open.
- Frequency.Tally: counts are unbounded. The source's `Integer` counts would wrap after 2^31 - 1 increments of one key.
- Ascii.EqualsIgnoreCase: folds only ASCII letters. Java's `equalsIgnoreCase` also folds other Unicode letters.
- UtcTime.SlotAt: times are unbounded integers rather than Java `long`. Every `long` converts without an exception in the source, so this widens the domain and changes no result.
- Labels.FormatEventTime: assumes a default locale whose digits are the Latin 0-9. `String.format` takes its zero digit from the default locale, so under a locale with other digits (Arabic-Indic or Thai, say) the hour and minute digits are not ASCII.
- Time zones other than UTC: the source only uses `ZoneId.of("UTC")`.
