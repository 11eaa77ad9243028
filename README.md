# Cross-timezone meeting planner: the time arithmetic and the slot search

This project models the logic of the meeting planner's `timezoneUtils` module in Dafny, with proofs. The module has:

- a static catalog of seventeen time zones with their nominal UTC offsets;
- the offset lookup;
- conversion of a timestamp from one zone to another;
- the working-hours test (hours 9 through 22);
- the evaluation of one meeting window against a list of participants;
- the search over a week of hourly windows, anchored in Shanghai time. It scores every window, sorts them stably by score and keeps the best ten.

Modules, one per file:

- `TimezoneRegistry` (`registry.dfy`): the catalog and `getTimezoneOffset`.
  - Each offset is stored as whole minutes: the catalog's hour value times 60, so Kolkata's 5.5 becomes 330.
  - The lookup is a recursive first-match search that returns 0 when nothing matches.
- `TimeConversion` (`conversion.dfy`): `convertToTimezone`, the hour of a timestamp, and `isWorkingHours`.
  - A timestamp is an integer number of milliseconds on one wall-clock line.
  - The hour is `(t / 3 600 000) % 24`. This is what `getHours` reads on a host without daylight-saving jumps.
- `MeetingEvaluation` (`evaluation.dfy`): `findOptimalMeetingTime`.
  - The participant `map` becomes a sequence comprehension, and the `filter` becomes a recursive function.
  - The 70 % threshold is proved equal, on exact fractions, to the integer test `10 * count >= 7 * n`.
- `StableRanking` (`ranking.dfy`): the stable descending sort (`Array.prototype.sort` with a descending comparator), written as an insertion sort.
  - The proofs show the result is sorted, is a permutation of the input, is stable for every key, and ranks equal keys by an increasing order.
- `MeetingSearch` (`search.dfy`): `generateMeetingTimeOptions` as imperative code.
  - A nested day/hour loop appends each evaluated window to a sequence. It is proved equal to the specification function `Candidates` (91 windows in generation order).
  - The sort and the slice are then taken, and the top-ten properties are proved of the result.
  - The two inner steps of the loop nest are methods of their own: `DayOptions` is the hour loop of one day, and `EvaluateSlot` is the per-participant loop with its counter.

Modelling choices:

- **Current time.** The current time (`new Date()`) is a parameter, `now`. Tomorrow's midnight is `(now / DayMs + 1) * DayMs`.
- **Score.** Ranking uses the working count instead of the floating-point percentage. For a fixed participant count `n > 0`, the percentage orders windows exactly as the count does (`PercentageOrder`).
- **Empty participant list.** It is accepted, as it is in the code, so no member requires participants.
  - In the code, `0 / 0` gives `NaN`, and `NaN >= 70` is false. So `isOptimal` is false, which the model states as `n > 0 && 10 * count >= 7 * n`.
  - In the search, every comparison is `NaN`, which the sort treats as a tie, so generation order is kept. Ranking by count gives the same result, because every count is 0.
  - The code does not reject an empty list: `findOptimalMeetingTime` then computes `0 / 0 = NaN`, and `isOptimal` is false. The only caller guard is before the search (`src/components/MeetingTimeCalculator.js:53`). The model follows the code.

## Model

| member | source | states |
|---|---|---|
| TimezoneRegistry.TimezoneOffset | src/utils/timezoneUtils.js:41-47 | every offset the lookup returns lies within ten hours of UTC and is a whole number of half hours |
| TimezoneRegistry.OffsetIn | src/utils/timezoneUtils.js:42-46 | no contract of its own; characterised by `OffsetIsFirstMatch`, `FirstOccurrence` and `NotFound`: the first entry naming the identifier decides, and 0 when none does |
| TimezoneRegistry.OffsetIsFirstMatch | src/utils/timezoneUtils.js:42-46 | the lookup is `find` with a fallback: an identifier no entry names gets 0, and a named one gets the offset of the first entry naming it, with no earlier entry naming it |
| TimezoneRegistry.FirstOccurrence | src/utils/timezoneUtils.js:42-44 | an entry that no earlier entry shadows gives the lookup its own offset |
| TimezoneRegistry.NotFound | src/utils/timezoneUtils.js:46 | an identifier that no entry names gets 0 (UTC) |
| TimezoneRegistry.OffsetBounded | src/utils/timezoneUtils.js:41-47 | a catalog whose offsets are bounded multiples of 30 minutes yields such an offset for every identifier |
| TimezoneRegistry.CommonTimezonesDistinct | src/utils/timezoneUtils.js:2-20 | no identifier appears twice in the catalog |
| TimezoneRegistry.OffsetOfEntry | src/utils/timezoneUtils.js:41-47 | in a catalog with distinct identifiers, each entry's identifier looks up exactly that entry's offset |
| TimezoneRegistry.CatalogOffsets | src/utils/timezoneUtils.js:2-47 | every catalog zone gets 60 times its nominal hour offset, and every identifier outside the catalog gets 0 |
| TimezoneRegistry.SampleOffsets | src/utils/timezoneUtils.js:3-14 | Shanghai is 480 minutes, Kolkata 330 and New York -300 |
| TimezoneRegistry.UnknownZoneOffset | src/utils/timezoneUtils.js:46 | an identifier the catalog does not name ("GMT+8") falls back to offset 0 |
| TimeConversion.ConvertToTimezone | src/utils/timezoneUtils.js:23-38 | conversion shifts a timestamp by at most 20 hours, and by a whole number of half hours; its partners are `ConvertRoundTrip`, `ConvertIdentity` and `ConvertCompose` |
| TimeConversion.ConvertIdentity | src/utils/timezoneUtils.js:23-38 | converting between a zone and itself returns the timestamp unchanged |
| TimeConversion.ConvertRoundTrip | src/utils/timezoneUtils.js:23-38 | converting A to B and back to A returns the original timestamp exactly |
| TimeConversion.ConvertCompose | src/utils/timezoneUtils.js:23-38 | converting A to B and then B to C equals converting A to C |
| TimeConversion.ConvertPreservesSpan | src/utils/timezoneUtils.js:23-38 | conversion is a translation: the distance between two timestamps is kept |
| TimeConversion.SampleConversions | src/utils/timezoneUtils.js:28-35 | Shanghai to New York moves a timestamp 13 hours back; Shanghai to Kolkata moves it 150 minutes back |
| TimeConversion.Hour | src/utils/timezoneUtils.js:67 | the hour of any timestamp is in 0..23 |
| TimeConversion.HourOfTimeOfDay | src/utils/timezoneUtils.js:67 | the hour is the number of whole hours elapsed since that day's midnight |
| TimeConversion.HourOfDay | src/utils/timezoneUtils.js:67 | `hour:minute` on any day has hour `hour` |
| TimeConversion.IsWorkingHours | src/utils/timezoneUtils.js:66-69 | no contract of its own; characterised by `WorkingHoursWindow` and `WorkingHoursBoundaries`: working hours are exactly the times of day in [09:00, 23:00) |
| TimeConversion.WorkingHoursWindow | src/utils/timezoneUtils.js:66-69 | a timestamp is in working hours iff its time of day is in [09:00, 23:00) |
| TimeConversion.WorkingHoursBoundaries | src/utils/timezoneUtils.js:66-69 | on every day, 9:00 and 22:xx are working hours while 8:xx and 23:00 are not |
| MeetingEvaluation.ParticipantTimeFor | src/utils/timezoneUtils.js:78-86 | no contract of its own; characterised by `ParticipantTimesSpec`, `SameZoneSameFlag` and `MeetingZoneUnchanged`: both ends converted from the meeting zone, flagged iff both are in working hours |
| MeetingEvaluation.ParticipantTimes | src/utils/timezoneUtils.js:77-87 | one entry per participant |
| MeetingEvaluation.ParticipantTimesSpec | src/utils/timezoneUtils.js:77-87 | entry i belongs to participant i, holds the start and end converted from the meeting zone to that participant's zone, and is flagged iff both converted ends are in working hours |
| MeetingEvaluation.WorkingEntries | src/utils/timezoneUtils.js:90 | the filter keeps only flagged entries of the input, and keeps every flagged entry |
| MeetingEvaluation.CountWorking | src/utils/timezoneUtils.js:90 | no contract of its own; characterised by `CountIsFlagged`, `CountExtremes` and `CountAppend`: the number of flagged entries |
| MeetingEvaluation.CountIsFlagged | src/utils/timezoneUtils.js:90 | the working count equals the number of positions whose entry is flagged |
| MeetingEvaluation.CountExtremes | src/utils/timezoneUtils.js:90 | the count is n iff every entry is flagged, and 0 iff none is |
| MeetingEvaluation.CountAppend | src/utils/timezoneUtils.js:119-125 | appending an entry raises the count by one iff the entry is flagged, as the loop counter does |
| MeetingEvaluation.WorkingPercentage | src/utils/timezoneUtils.js:91 | the percentage of working participants is between 0 and 100 |
| MeetingEvaluation.FindOptimalMeetingTime | src/utils/timezoneUtils.js:72-98 | one entry per participant, a count between 0 and n, and isOptimal iff there are participants and the percentage is at least 70 |
| MeetingEvaluation.MeetsThreshold | src/utils/timezoneUtils.js:97 | no contract of its own; characterised by `ThresholdIsPercentage` and `ThresholdSamples`: there are participants and the percentage is at least 70 |
| MeetingEvaluation.ThresholdIsPercentage | src/utils/timezoneUtils.js:91-97 | percentage >= 70 holds iff 10 * count >= 7 * n |
| MeetingEvaluation.PercentageOrder | src/utils/timezoneUtils.js:135 | for a fixed participant count, the percentage orders windows exactly as the working count does |
| MeetingEvaluation.ThresholdSamples | src/utils/timezoneUtils.js:97 | 5 of 7 and 7 of 10 are optimal, 6 of 10 is not, and no participants is never optimal |
| MeetingEvaluation.SameZoneSameFlag | src/utils/timezoneUtils.js:77-87 | two participants in the same zone get the same converted window and the same flag |
| MeetingEvaluation.MeetingZoneUnchanged | src/utils/timezoneUtils.js:77-87 | a participant in the meeting's own zone sees the window unchanged |
| MeetingEvaluation.ShanghaiMorningInNewYork | src/utils/timezoneUtils.js:72-98 | 09:00-10:00 in Shanghai is 20:00-21:00 of the previous day in New York, which is working hours there |
| StableRanking.Insert | src/utils/timezoneUtils.js:148 | inserting adds exactly the new element to the multiset |
| StableRanking.SortByKeyDesc | src/utils/timezoneUtils.js:148 | the sort keeps the length and is a permutation of its input |
| StableRanking.SortIsSorted | src/utils/timezoneUtils.js:148 | the sorted sequence has non-increasing keys |
| StableRanking.SortIsStable | src/utils/timezoneUtils.js:148 | for every key, the elements with that key come out in the order they went in |
| StableRanking.SortIsRanked | src/utils/timezoneUtils.js:148 | when the input is in increasing order, equal keys keep the earlier element first |
| StableRanking.SortedTop | src/utils/timezoneUtils.js:148 | the first k of the sort are sorted, ranked and drawn from the input; nothing left out beats the last one kept, and nothing beats the first |
| MeetingSearch.Tomorrow | src/utils/timezoneUtils.js:104-106 | the base date is a midnight strictly after now and at most a day later |
| MeetingSearch.CandidateAt | src/utils/timezoneUtils.js:115-143 | characterised by `CandidateEvaluation` and `CandidateShape`: the window at `hour` o'clock on day `day`, lasting `duration` minutes, with its Shanghai-anchored evaluation |
| MeetingSearch.DayCandidates | src/utils/timezoneUtils.js:114-144 | a day holds 13 candidates |
| MeetingSearch.WeekCandidates | src/utils/timezoneUtils.js:109-145 | `days` days give 13 candidates each; `WeekIndex` places the candidate of day d at hour 8 + h at index 13 * d + h |
| MeetingSearch.Candidates | src/utils/timezoneUtils.js:109-145 | the search generates 7 * 13 = 91 candidates |
| MeetingSearch.EvaluateSlot | src/utils/timezoneUtils.js:119-133 | the per-participant loop builds exactly the mapped entries anchored in Shanghai, and its counter equals their working count |
| MeetingSearch.EvaluateCandidate | src/utils/timezoneUtils.js:115-143 | one step of the hour loop yields exactly the candidate for that day and hour |
| MeetingSearch.DayOptions | src/utils/timezoneUtils.js:114-144 | the hour loop of one day yields exactly that day's 13 candidates in order |
| MeetingSearch.GenerateMeetingTimeOptions | src/utils/timezoneUtils.js:102-149 | the result is the first ten of the stable descending sort of the 91 candidates: ten options with non-increasing counts, ties in generation order, a sub-multiset of the candidates, with no omitted candidate beating the tenth and none beating the first |
| MeetingSearch.TopOptions | src/utils/timezoneUtils.js:148 | the first ten of the stable descending sort of the 91 candidates have non-increasing counts, keep ties in generation order, are drawn from the candidates, and no omitted candidate beats the tenth |
| MeetingSearch.CandidateIndex | src/utils/timezoneUtils.js:109-143 | position 13 * day + hour - 8 of the week's candidates is the candidate for that day and hour |
| MeetingSearch.CandidateEvaluation | src/utils/timezoneUtils.js:115-143 | a candidate starts at `hour` o'clock on day `day` after the base midnight, ends `duration` minutes later, and carries the evaluation of that window from Shanghai |
| MeetingSearch.WeekIndex | src/utils/timezoneUtils.js:109-114 | the candidate of day d at hour 8 + h sits at index 13 * d + h |
| MeetingSearch.CandidateShape | src/utils/timezoneUtils.js:109-143 | candidate 13 * day + hour - 8 starts at `hour` o'clock on day `day` after tomorrow's midnight, lasts `duration` minutes, and carries the Shanghai-anchored evaluation of its window |
| MeetingSearch.MidnightHour | src/utils/timezoneUtils.js:106-115 | `hour` o'clock on any day after a midnight has hour `hour` |
| MeetingSearch.CandidatesIncreasing | src/utils/timezoneUtils.js:109-115 | candidates are generated in strictly increasing start time |

## Left out

- `formatTime`: a call to `Intl.DateTimeFormat`, which is display formatting outside this model.
- The catalog's display labels: they are strings shown to the user and play no part in any computation.
- The React components and the participant manager: UI state and rendering that only call this module.
- JS `Date` internals. Host-local `getHours`, `setDate` and `setHours`, month rollover, and the host's own daylight-saving shifts are replaced by one integer millisecond line with 86 400 000 ms per day. The caller passes the form's `datetime-local` strings (`src/components/MeetingTimeCalculator.js:42-47`), which `new Date(startTime)` parses as host-local time (`src/utils/timezoneUtils.js:73-74`); the model takes the parsed millisecond values as its inputs, and string parsing is not modelled.
- Real daylight saving and IANA offset resolution. The code uses only the catalog's nominal offsets, and so does the model.
- Floating-point arithmetic:
  - `workingHoursPercentage` and `suitabilityScore` are exact fractions (`WorkingPercentage`), and ranking uses the count. Rounding of `count / n * 100` near 70 % is not modelled.
  - The fractional Kolkata offset is exact: 330 minutes.
- MeetingEvaluation.FindOptimalMeetingTime: the returned record does not carry `workingHoursPercentage`; it is `WorkingPercentage(workingHoursCount, n)`.
- MeetingSearch.GenerateMeetingTimeOptions: the options do not carry `suitabilityScore`; it is a function of the stored count. The spread `...participant` is kept as the whole participant record inside each entry.
- The sort itself: `Array.prototype.sort` is a library call, modelled by a stable insertion sort written as a function. Any stable sort with the same comparator gives the same sequence.
- `duration` arrives as a number. Parsing of the form field and a `NaN` duration are outside this model.
- The dates are copied (`new Date(...)`), not aliased; values in the model cannot alias, so this needs no counterpart.
