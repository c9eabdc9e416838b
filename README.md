# FlowState focus statistics — a Dafny model

FlowState is a Pomodoro-style focus timer written in React. The user runs timed focus sessions and tags them. The sessions are stored, and the statistics page folds them into several views:

- the overview: minutes per day, today, lifetime, and the current and best streak;
- the day view: sessions of one day, tag distribution and timeline;
- the week view: Monday to Sunday, seven day buckets, and the week before;
- the year view: heat map of days with a per-day tag breakdown, months, best day and best month, average session, and the best streak within the year.

The sidebar keeps its own minutes-per-day map and current-streak counter. Three small editors hold state:

- the focus timer (tick, start and pause, end, settings sync, restore after a reload, the session record it saves, the clock face);
- the tag list editor (add, rename and recolour, delete, with its form state);
- the settings panel (single-field updates, clamped steppers, the total-time line).

The model is one Dafny module per concern:

| module | file | models |
|---|---|---|
| `Calendar` | calendar.dfy | The viewer's local calendar as a JavaScript `Date` sees it: dates, next and previous day, consecutive day numbers, weekday. |
| `DateKeys` | date_key.dfy | `getLocalDateKey` (`Y-MM-DD`), JavaScript string order, and `new Date(key)` for the date-only form. |
| `Records` | records.dfy | Local instants, `getTime`, session documents and sessions, the tag-name and colour fallbacks, `filter` and sums. |
| `Sums`, `Runs` | sums.dfy, runs.dfy | Sums over dictionary values, `Math.max(0, ...values)`, and the grow/reset/keep-maximum counter behind every streak. |
| `TagDistribution` | tag_distribution.dfy | The `tagMap` fold over a plain JavaScript object (names inherited from `Object.prototype` get no entry; `Object.values` lists integer-like names first) and the descending, stable sort by minutes. |
| `Overview`, `Streaks`, `StreakFacts` | overview.dfy, streaks.dfy, streak_facts.dfy | `processOverviewStats` and `calculateStreaks`, with what the best streak means. |
| `DayView`, `WeekView`, `YearView` | day_view.dfy, week_view.dfy, year_view.dfy | `processDayData`, `processWeekData`, `processYearData`. |
| `DurationLabel` | duration_label.dfy | The statistics page's `formatTime(mins)`. |
| `Sidebar` | sidebar.dfy | The sidebar's snapshot fold, `calculateStreak`, sign-out reset, and the active-day test of its calendar. |
| `FocusTimer` | focus_timer.dfy | The focus page's state machine, with a `Timer` class whose methods change the state in place. |
| `TagManager` | tag_manager.dfy | The tag list operations, with a `TagEditor` class for the editor's state. |
| `FocusSettings` | focus_settings.dfy | The settings record, `set`, the steppers and the total-time formula. |
| `Wrappers` | wrappers.dfy | `Option` for `null`/`undefined`. |

The current time, the signed-in user, stored state and new ids are parameters. Each loop of the source is a `method` with a `for` or `while` loop. Its loop invariants tie it to a specification function. The properties of that function are proved as lemmas.

Where the code looks unintended, the model follows the code:

- With no days at all, `calculateStreaks` returns before reporting anything, so the streak shown keeps its previous value rather than becoming zero. `Streaks.CalculateStreaks` returns `None` in that case.
- The sidebar's streak counter does not stop at a short yesterday when today is short as well (see Findings). The sidebar's state runs that count as written; the corrected count is proved beside it.
- A tag named like a property every JavaScript object inherits (`constructor`, `toString`, ...) gets no entry in the tag distribution or in a day's tag breakdown, so its minutes are missing there.

## Model

| member | source | states |
|---|---|---|
| Calendar.NextDate | productivity-app/src/pages/Analyze.jsx:268 | `d.setDate(d.getDate() + 1)` gives a valid date strictly after `d`. |
| Calendar.PrevDate | productivity-app/src/pages/Analyze.jsx:305 | `d.setDate(d.getDate() - 1)` gives a valid date strictly before `d`. |
| Calendar.NextOfPrev | productivity-app/src/pages/Analyze.jsx:305 | Stepping back a day and then forward again returns to the same date. |
| Calendar.PrevOfNext | productivity-app/src/pages/Analyze.jsx:268 | Stepping forward a day and then back again returns to the same date. |
| Calendar.NothingBetween | productivity-app/src/pages/Analyze.jsx:268 | No valid date lies strictly between a date and the next one, so stepping by days skips no day. |
| Calendar.DayNumberNext | productivity-app/src/pages/Analyze.jsx:268 | The next date has the next day number. |
| Calendar.DayNumberBack | productivity-app/src/pages/Analyze.jsx:305 | Stepping back `k` days lowers the day number by exactly `k`. |
| Calendar.DayNumberAhead | productivity-app/src/pages/Analyze.jsx:268 | Stepping forward `k` days raises the day number by exactly `k`. |
| Calendar.DayNumberMonotone | productivity-app/src/pages/Analyze.jsx:268 | Day numbers are in calendar order. |
| Calendar.DayNumberInjective | productivity-app/src/pages/Analyze.jsx:268 | Two valid dates have the same day number if and only if they are equal. |
| Calendar.NotBeforeIff | productivity-app/src/pages/Analyze.jsx:268 | The loop test `d <= end` is the order of the day numbers. |
| Calendar.YearOfDayNumber | productivity-app/src/pages/Analyze.jsx:266-268 | The days of a year form one contiguous block of day numbers, from 1 January on. |
| Calendar.Weekday | productivity-app/src/pages/Analyze.jsx:162 | `getDay()` lies in 0..6. |
| Calendar.WeekdaySucc | productivity-app/src/pages/Analyze.jsx:162 | The next day is the next weekday, Saturday wrapping to Sunday. |
| DateKeys.NatToStringSpec | productivity-app/src/pages/Analyze.jsx:44-46 | `String(n)` is a decimal numeral with no leading zero that denotes `n`, one character long exactly below 10. |
| DateKeys.IntToStringInjective | productivity-app/src/pages/Analyze.jsx:44 | Two years render the same if and only if they are equal. |
| DateKeys.TwoDigitsShape | productivity-app/src/pages/Analyze.jsx:45-46 | `padStart(2, '0')` makes month and day exactly two digits that denote the number. |
| DateKeys.FourDigitYear | productivity-app/src/pages/Analyze.jsx:44 | Years 1000..9999 render as four digits that denote the year. |
| DateKeys.DateKeySplit | productivity-app/src/pages/Analyze.jsx:43-48 | The key is the year followed by a fixed-width `-MM-DD` tail. |
| DateKeys.DateKeyLength | productivity-app/src/pages/Analyze.jsx:43-48 | For four-digit years the key has exactly ten characters. |
| DateKeys.DateKeyInjective | productivity-app/src/pages/Analyze.jsx:43-48 | Two valid dates have the same key if and only if they are the same date, for any year. |
| DateKeys.LexTransitive | productivity-app/src/pages/Analyze.jsx:294 | JavaScript's string order is transitive. |
| DateKeys.LexTotal | productivity-app/src/pages/Analyze.jsx:294 | Of two different strings one is below the other. |
| DateKeys.LexAsymmetric | productivity-app/src/pages/Analyze.jsx:294 | Two strings are never each below the other. |
| DateKeys.DigitsOrder | productivity-app/src/pages/Analyze.jsx:294 | On digit strings of equal length, string order is numeric order. |
| DateKeys.DateKeyOrder | productivity-app/src/pages/Analyze.jsx:43-48 | For four-digit years one key sorts before another if and only if its date is earlier. |
| DateKeys.ParseDateKey | productivity-app/src/pages/Analyze.jsx:316 | `new Date(key)` recovers the date of a key with a four-digit year. |
| DateKeys.KeyOfParsed | productivity-app/src/pages/Analyze.jsx:316 | A string that parses to a date of year 1000 or later is that date's key. |
| Records.TimeOfDayMs | productivity-app/src/pages/Analyze.jsx:127 | Time of day in milliseconds lies in one day. |
| Records.EpochMs | productivity-app/src/pages/Analyze.jsx:127 | `getTime()` lies within the day of its date on the local time line. |
| Records.InDayWindow | productivity-app/src/pages/Analyze.jsx:120-128 | An instant lies in `[00:00:00.000, 23:59:59.999]` of a date, both ends inclusive, if and only if it is on that date. |
| Records.LocalKeySameDay | productivity-app/src/pages/Analyze.jsx:95 | Two instants have the same key if and only if they are on the same local date. |
| Records.FromDoc | productivity-app/src/pages/Analyze.jsx:56-60 | A loaded session keeps `createdAt`, or takes `now` when it is missing. A missing duration counts as 0. |
| Records.TagName | productivity-app/src/pages/Analyze.jsx:137 | A missing tag or an empty name resolves to 'Untagged'; otherwise the tag's own name. The result is never empty. |
| Records.TagColor | productivity-app/src/pages/Analyze.jsx:138 | A missing tag or an empty colour resolves to '#3B82F6'; otherwise the tag's own colour. |
| Records.FilterMembers | productivity-app/src/pages/Analyze.jsx:126-129 | `filter` keeps exactly the sessions that satisfy the test. |
| Records.FilterSnoc | productivity-app/src/pages/Analyze.jsx:126-129 | `filter` keeps the sessions in their original order. |
| Records.TotalMinutesSnoc | productivity-app/src/pages/Analyze.jsx:131 | The `reduce` total grows by each session's duration. |
| Sums.MapSumRemove | productivity-app/src/pages/Analyze.jsx:259-260 | The sum of a dictionary's values does not depend on the order of its keys. |
| Sums.MapSumUpdate | productivity-app/src/pages/Analyze.jsx:98-99 | Storing a value under a key changes the sum by the new value minus the old one. |
| Sums.MaxOrZero | productivity-app/src/pages/Analyze.jsx:259-260 | `Math.max(0, ...values)` is at least 0 and at least every value, and is 0 or one of the values. |
| Runs.ScanStep | productivity-app/src/pages/Analyze.jsx:271-276 | One day of a streak scan: the counter grows on a hit and resets on a miss, and the maximum keeps the larger value. |
| Runs.LongestBound | productivity-app/src/pages/Analyze.jsx:271-276 | No stretch of hits is longer than the maximum the scan reports. |
| Runs.LongestAttained | productivity-app/src/pages/Analyze.jsx:271-276 | Some stretch of hits is exactly as long as the maximum the scan reports. |
| Runs.LongestZero | productivity-app/src/pages/Analyze.jsx:271-276 | The scan reports 0 if and only if there is no hit. |
| TagDistribution.IndexOfName | productivity-app/src/pages/Analyze.jsx:140 | `tagMap[name]` as an own entry: the position of the entry with that name, or -1 when no own entry has it. |
| TagDistribution.EnterTag | productivity-app/src/pages/Analyze.jsx:137-141 | The in-place `tagMap` update of one session is the fold step `Accumulate`, which skips a name inherited from `Object.prototype`. |
| TagDistribution.AccumulateSpec | productivity-app/src/pages/Analyze.jsx:140-141 | An inherited name (`constructor`, `toString`, `__proto__`, ...) changes nothing. Any other name adds the session's minutes to its entry, or gets a new last entry with the session's colour. Every other entry is unchanged, and the total grows by the tallied minutes. |
| TagDistribution.AccumulateSum | productivity-app/src/pages/Analyze.jsx:140-141 | The entries' minutes grow by the session's minutes exactly when its name is not inherited. |
| TagDistribution.AccumulateNames | productivity-app/src/pages/Analyze.jsx:140 | After one session, a name has an entry if and only if it had one or is the session's own, non-inherited name. Names stay distinct. |
| TagDistribution.GroupByTagNames | productivity-app/src/pages/Analyze.jsx:135-141 | Each name appears once, and a name appears if and only if some session resolves to it and it is not inherited. |
| TagDistribution.GroupByTagEntries | productivity-app/src/pages/Analyze.jsx:135-141 | Each entry holds the total minutes of its name's sessions and the colour of the first such session. |
| TagDistribution.GroupByTagTotal | productivity-app/src/pages/Analyze.jsx:135-141 | The entries' minutes add up to the total of the sessions whose names are not inherited. |
| TagDistribution.Priority | productivity-app/src/pages/Analyze.jsx:155 | `Object.values` lists array-index names first, smallest index first, and every other name at one lowest priority. |
| TagDistribution.InsertSorted | productivity-app/src/pages/Analyze.jsx:155 | Inserting an entry by its key keeps a list sorted largest first. |
| TagDistribution.InsertStable | productivity-app/src/pages/Analyze.jsx:155 | An inserted entry lands after the entries with an equal key. |
| TagDistribution.SortBySpec | productivity-app/src/pages/Analyze.jsx:155 | The stable sort is a permutation, orders largest key first, and keeps the order of entries with equal keys. |
| TagDistribution.ObjectValuesSpec | productivity-app/src/pages/Analyze.jsx:155 | `Object.values(tagMap)` is a permutation of the entries. Array-index names come first in ascending numeric order, and the other names keep their creation order. |
| TagDistribution.DistributionSpec | productivity-app/src/pages/Analyze.jsx:135-155 | The distribution is sorted largest first. It lists exactly the used, non-inherited names, each with its total minutes and the colour of its first session. Entries with equal minutes keep their `Object.values` order. |
| TagDistribution.DistributionTotal | productivity-app/src/pages/Analyze.jsx:135-155 | The distribution's minutes add up to the total of the sessions with non-inherited names, and to the sessions' total when no name is inherited. |
| TagDistribution.DistributionDistinct | productivity-app/src/pages/Analyze.jsx:135-155 | Each name is listed once. |
| TagDistribution.InheritedNameDropped | productivity-app/src/pages/Analyze.jsx:140-141 | One 10-minute session tagged `constructor` gives an empty distribution. |
| TagDistribution.IndexNameFirst | productivity-app/src/pages/Analyze.jsx:140-155 | Sessions `Work` 10 then `7` 10 give `7` before `Work`: the tie keeps `Object.values` order, not first-seen order. |
| Overview.KeysOfSnoc | productivity-app/src/pages/Analyze.jsx:98 | A session adds its own key to the set of days with sessions. |
| Overview.DayMapSpec | productivity-app/src/pages/Analyze.jsx:94-100 | The day map holds exactly the days with at least one session, with no minute threshold. Each day's value is the total of that day's sessions. |
| Overview.DayMapTotal | productivity-app/src/pages/Analyze.jsx:94-101 | The day map's values add up to the lifetime total. |
| Overview.DailyMinutesCanonical | productivity-app/src/pages/Analyze.jsx:95 | Keys written for four-digit years parse back to their dates. |
| Overview.TallyDays | productivity-app/src/pages/Analyze.jsx:94-107 | The single pass builds the day map, the lifetime total, and today's minutes and count over exactly the sessions with today's key. |
| Overview.ProcessOverviewStats | productivity-app/src/pages/Analyze.jsx:87-117 | Overview: day map, today's and lifetime minutes and sessions, the number of distinct days, and the streaks from `calculateStreaks`. |
| Streaks.RunBackSpec | productivity-app/src/pages/Analyze.jsx:301-305 | The backward walk counts the longest run of days with at least 5 minutes ending at the start day. The day before the run falls short. |
| Streaks.QualifyingShrinks | productivity-app/src/pages/Analyze.jsx:301-314 | Each qualifying day walked past leaves fewer qualifying keys behind, so the walk ends. |
| Streaks.WalkCurrent | productivity-app/src/pages/Analyze.jsx:300-314 | The `while (true)` walk returns the run ending today. While today falls short it returns the run ending yesterday instead. |
| Streaks.SortedSeqMembers | productivity-app/src/pages/Analyze.jsx:294 | The sorted keys are exactly the map's keys, each once. |
| Streaks.SortedSeqSorted | productivity-app/src/pages/Analyze.jsx:294 | The sorted keys ascend strictly in string order. |
| Streaks.SortKeys | productivity-app/src/pages/Analyze.jsx:294 | `Object.keys(map).sort()` gives the keys in ascending string order. |
| Streaks.ActiveParsed | productivity-app/src/pages/Analyze.jsx:316 | Filtering and parsing never lengthens the list. |
| Streaks.Links | productivity-app/src/pages/Analyze.jsx:320-324 | One flag per neighbouring pair of active days: whether they are one calendar day apart. |
| Streaks.FilterActive | productivity-app/src/pages/Analyze.jsx:316 | The loop keeps the keys with at least 5 minutes, in order, parsed. |
| Streaks.ScanBest | productivity-app/src/pages/Analyze.jsx:317-331 | The counting loop gives 0 for no active day, else one more than the longest run of neighbouring pairs. |
| Streaks.CalculateStreaks | productivity-app/src/pages/Analyze.jsx:293-333 | An empty map reports nothing. Otherwise the result is the current streak and the best streak over the sorted keys. |
| StreakFacts.ActiveKeysSpec | productivity-app/src/pages/Analyze.jsx:316 | The active keys are exactly the keys with at least 5 minutes, and sorted keys stay sorted. |
| StreakFacts.ActiveGood | productivity-app/src/pages/Analyze.jsx:316 | For keys written by `getLocalDateKey`, the active days are qualifying dates in strictly increasing order. |
| StreakFacts.ActiveComplete | productivity-app/src/pages/Analyze.jsx:316 | Every qualifying date is among the active days. |
| StreakFacts.BestCoversRuns | productivity-app/src/pages/Analyze.jsx:316-331 | Every run of consecutive qualifying days is no longer than the best streak. |
| StreakFacts.BestAttained | productivity-app/src/pages/Analyze.jsx:316-331 | Some run of consecutive qualifying days is exactly as long as a positive best streak. |
| StreakFacts.BestPositive | productivity-app/src/pages/Analyze.jsx:316-319 | The best streak is at least 1 if and only if some day has at least 5 minutes. |
| StreakFacts.CurrentAtMostBest | productivity-app/src/pages/Analyze.jsx:300-331 | The current streak never exceeds the best streak. |
| DayView.DaySessionsExact | productivity-app/src/pages/Analyze.jsx:119-129 | The inclusive midnight-to-23:59:59.999 window holds exactly the sessions of the selected calendar day. |
| DayView.StartHour | productivity-app/src/pages/Analyze.jsx:143 | `getHours() + getMinutes() / 60` lies in [0, 24), within the session's hour. |
| DayView.TimelineOf | productivity-app/src/pages/Analyze.jsx:143-149 | A bar has the session's duration and tag colour, and starts within the day. |
| DayView.EnterSession | productivity-app/src/pages/Analyze.jsx:135-150 | One session folds into the tag map and appends its bar. |
| DayView.TagsAndTimeline | productivity-app/src/pages/Analyze.jsx:135-150 | The loop builds the tag map of the day's sessions and one timeline bar per session, in order. |
| DayView.ProcessDayData | productivity-app/src/pages/Analyze.jsx:119-158 | The day's total, count, sorted tag distribution and timeline, over exactly the day's sessions. |
| WeekView.WeekStartSpec | productivity-app/src/pages/Analyze.jsx:162-166 | The week starts on the Monday on or before today, at most six days back. A Sunday goes back exactly six days. |
| WeekView.InWeekDays | productivity-app/src/pages/Analyze.jsx:165-170 | The window holds exactly the instants on the seven days from that Monday on. |
| WeekView.DayIndex | productivity-app/src/pages/Analyze.jsx:201 | The bucket index lies in 0..6. |
| WeekView.DayIndexIsOffset | productivity-app/src/pages/Analyze.jsx:201-203 | A session of the week lands in the bucket of its day's offset from Monday. |
| WeekView.PrevWeekShifted | productivity-app/src/pages/Analyze.jsx:172-175 | The previous week is the current week moved back seven days, and the two do not overlap. |
| WeekView.BucketsSnoc | productivity-app/src/pages/Analyze.jsx:203-206 | A session grows exactly the bucket of its day. |
| WeekView.BucketsCoverWeek | productivity-app/src/pages/Analyze.jsx:198-206 | The seven buckets' minutes and counts add up to the week's minutes and count. |
| WeekView.TallyWeek | productivity-app/src/pages/Analyze.jsx:177-216 | The loop gives the week's total and count, the seven day buckets, the week's tag map and the previous week's total. |
| WeekView.ProcessWeekData | productivity-app/src/pages/Analyze.jsx:160-225 | The week's total, count, previous-week total, seven day buckets and sorted tag distribution. |
| YearView.MonthIndex | productivity-app/src/pages/Analyze.jsx:244 | `getMonth()` lies in 0..11. |
| YearView.DayCellsSpec | productivity-app/src/pages/Analyze.jsx:236-242 | The heat map holds exactly the days with sessions. Each day holds the minutes and the count of that day's sessions. |
| YearView.AddTagCellSum | productivity-app/src/pages/Analyze.jsx:254-255 | A session adds its minutes to its day's tag breakdown, unless its name is inherited from `Object.prototype`. |
| YearView.TaggedMinutesSnoc | productivity-app/src/pages/Analyze.jsx:239-255 | A session adds its minutes to the tagged minutes of its own day only, and only when its name is not inherited. |
| YearView.DayTagsAddUp | productivity-app/src/pages/Analyze.jsx:239-255 | Each day's tag minutes add up to the minutes of that day's sessions whose names are not inherited. |
| YearView.DayTagsAddUpAll | productivity-app/src/pages/Analyze.jsx:239-255 | When no tag name is inherited, each day's tag minutes add up to that day's minutes. |
| YearView.CellMinutesAreDayMap | productivity-app/src/pages/Analyze.jsx:239-241 | The heat map's minutes per day are the overview's day map for the same sessions. |
| YearView.DayCellsTotal | productivity-app/src/pages/Analyze.jsx:229-241 | The heat map's days add up to the year's total. |
| YearView.MonthMinutesSpec | productivity-app/src/pages/Analyze.jsx:244-245 | Months are keyed 0..11 and add up to the year's total. |
| YearView.Average | productivity-app/src/pages/Analyze.jsx:261 | The average is 0 with no sessions, and otherwise times the count gives the total. |
| YearView.EnterDay | productivity-app/src/pages/Analyze.jsx:239-255 | The in-place update of one day is `AddDayCell`. |
| YearView.TallyYear | productivity-app/src/pages/Analyze.jsx:236-256 | The loop builds the heat map, the month map and the tag map of the year's sessions. |
| YearView.YearFlagsAt | productivity-app/src/pages/Analyze.jsx:268-271 | The `i`-th flag of the scan is whether the `i`-th day from 1 January has at least 5 minutes. |
| YearView.YearScanInYear | productivity-app/src/pages/Analyze.jsx:266-268 | Every day the scan visits is in the selected year. |
| YearView.YearScanCovers | productivity-app/src/pages/Analyze.jsx:266-268 | The scan visits every date of the year. |
| YearView.ScanAdvance | productivity-app/src/pages/Analyze.jsx:267-268 | The loop test `d <= end` holds for exactly the days of the year. |
| YearView.ScanDay | productivity-app/src/pages/Analyze.jsx:268-277 | One day of the scan advances the run counter, its maximum and the date. |
| YearView.ScanYear | productivity-app/src/pages/Analyze.jsx:263-278 | With an empty heat map the best streak is 0. Otherwise it is the longest run of active days from 1 January to 31 December. |
| YearView.YearBestStreak | productivity-app/src/pages/Analyze.jsx:263-278 | The same, over the heat map's `getLocalDateKey` keys. |
| YearView.YearStreakPositive | productivity-app/src/pages/Analyze.jsx:263-278 | The year's best streak is at most the days in the year. It is positive if and only if some date of that year has at least 5 minutes. |
| YearView.ProcessYearData | productivity-app/src/pages/Analyze.jsx:227-291 | Year totals and count, heat map, month map, best day and best month as `Math.max(0, ...)`, the guarded average, the best streak and the sorted tag distribution. |
| DurationLabel.LabelFields | productivity-app/src/pages/Analyze.jsx:337-338 | For a non-negative amount the hour and minute fields make up its whole minutes. Minutes lie in 0..59, and the hour field is 0 exactly below an hour. |
| DurationLabel.LabelRoundTrip | productivity-app/src/pages/Analyze.jsx:339-340 | Reading an `Xm` or `Xh Ym` label back gives its hours and minutes. |
| DurationLabel.FormatMinutesRoundTrip | productivity-app/src/pages/Analyze.jsx:336-341 | The label of a non-negative amount reads back as its whole minutes. Below an hour it is the minutes followed by `m`. |
| Sidebar.DocSession | productivity-app/src/components/Sidebar.jsx:36-39 | A stamped document keeps its date and tag. A missing duration counts as 0. |
| Sidebar.KeptMinutes | productivity-app/src/components/Sidebar.jsx:32-40 | The documents kept carry exactly the minutes of the stamped documents. |
| Sidebar.SnapshotDaysTotal | productivity-app/src/components/Sidebar.jsx:30-40 | The sidebar's day map adds up to the minutes of the documents that have a `createdAt`. |
| Sidebar.KeptAgreesWithLoad | productivity-app/src/components/Sidebar.jsx:34 | When every document is stamped, the sidebar folds the same sessions as the statistics page loads. |
| Sidebar.FoldSnapshot | productivity-app/src/components/Sidebar.jsx:30-40 | The snapshot loop skips unstamped documents and builds the day map of the others. |
| Sidebar.DayCountsIsQualifies | productivity-app/src/components/Sidebar.jsx:60-69 | The sidebar's 5-minute test on its own keys is the statistics page's qualifying test. |
| Sidebar.RunFromCapped | productivity-app/src/components/Sidebar.jsx:64-74 | The bounded loop counts the run ending at the first day it looks at, cut at the number of days it may look at. |
| Sidebar.CountBackAsWritten | productivity-app/src/components/Sidebar.jsx:55-77 | The loop as written gives 1 for a qualifying today. It then counts qualifying days from the first day counted back, at most 364 days. |
| Sidebar.CalculateStreakAsWritten | productivity-app/src/components/Sidebar.jsx:55-77 | `calculateStreak` as written with the sidebar's keys. |
| Sidebar.SidebarStreakSpec | productivity-app/src/components/Sidebar.jsx:60-75 | The count is at most 365. A qualifying today gives the run ending today cut at 365, and exactly 1 when yesterday falls short. A short today with a qualifying yesterday gives the run ending yesterday cut at 364. |
| Sidebar.SidebarSkipsYesterday | productivity-app/src/components/Sidebar.jsx:72 | When today and yesterday both fall short, the sidebar counts the run ending two days ago, while the statistics page reports 0. |
| Sidebar.SidebarAgreesWithCurrent | productivity-app/src/components/Sidebar.jsx:60-75 | When today or yesterday qualifies, the sidebar count is the statistics page's current streak cut at its horizon. |
| Sidebar.SidebarDisagreement | productivity-app/src/components/Sidebar.jsx:72 | Five minutes two days ago and nothing since: the sidebar shows 1 and the statistics page shows 0. |
| Sidebar.IntendedIsCurrent | productivity-app/src/components/Sidebar.jsx:64-74 | The corrected count is the statistics page's current streak cut at the days it looks at. |
| Sidebar.CountBack | productivity-app/src/components/Sidebar.jsx:64-75 | The corrected loop: it stops at the first short day after today. |
| Sidebar.CalculateStreak | productivity-app/src/components/Sidebar.jsx:55-77 | The corrected `calculateStreak` with the sidebar's keys. |
| Sidebar.SidebarState.constructor | productivity-app/src/components/Sidebar.jsx:9-11 | Nobody is signed in, the day map is empty and the streak is 0. |
| Sidebar.SidebarState.OnAuthChanged | productivity-app/src/components/Sidebar.jsx:22-50 | Signing out empties the day map and zeroes the streak. Signing in keeps both. |
| Sidebar.SidebarState.OnSnapshot | productivity-app/src/components/Sidebar.jsx:29-44 | A snapshot rebuilds the day map from the documents and recounts the streak with `calculateStreak` as written. |
| Sidebar.SidebarState.IsActiveDay | productivity-app/src/components/Sidebar.jsx:112-113 | A calendar day is shown active if and only if it has at least 5 minutes. |
| FocusTimer.Max0 | productivity-app/src/pages/Focus.jsx:43 | `Math.max(0, x)` is the least non-negative number not below `x`. |
| FocusTimer.RestoreTimeLeft | productivity-app/src/pages/Focus.jsx:34-48 | Nothing saved gives the focus duration in seconds. A paused timer keeps its value. A running one loses the whole elapsed seconds and stays non-negative, and never grows while time moves forward. |
| FocusTimer.SaveSession | productivity-app/src/pages/Focus.jsx:116-141 | A record is produced if and only if a user is signed in and at least a tenth of a minute has run. It carries the elapsed minutes, the selected tag or null, the flag and the mode. |
| FocusTimer.SavedAfterSixSeconds | productivity-app/src/pages/Focus.jsx:119-128 | The tenth-of-a-minute threshold is six whole seconds of running. |
| FocusTimer.Step | productivity-app/src/pages/Focus.jsx:177-192 | A tick never raises the time or drives it below 0. It saves only a completed session, only when a running timer is at 0, and then stops it. An idle timer is untouched. |
| FocusTimer.CountsDown | productivity-app/src/pages/Focus.jsx:179-181 | While running, `k` ticks take exactly `k` seconds off. |
| FocusTimer.RunsToCompletion | productivity-app/src/pages/Focus.jsx:177-185 | A running timer reaches 0, stops, and saves a completed session of exactly the focus duration when started from the full duration. |
| FocusTimer.RestoreMatchesTicks | productivity-app/src/pages/Focus.jsx:40-44 | Restoring a running timer equals ticking the elapsed whole seconds, stopping at 0. |
| FocusTimer.Toggle | productivity-app/src/pages/Focus.jsx:194-196 | Start or pause flips the running flag only while time is left. Nothing else changes. |
| FocusTimer.ToggleFacts | productivity-app/src/pages/Focus.jsx:194-196 | At 0 the button does nothing, and pressing it twice restores the state. |
| FocusTimer.End | productivity-app/src/pages/Focus.jsx:198-213 | Ending saves an incomplete session from the current state, stops, and rewinds, so `hasStarted` is false. |
| FocusTimer.EndUnstartedSavesNothing | productivity-app/src/pages/Focus.jsx:119-128 | Ending a timer that has not started saves nothing. |
| FocusTimer.UpdateSettings | productivity-app/src/pages/Focus.jsx:143-148 | New settings rewind the timer only when it is not running. |
| FocusTimer.SyncSettings | productivity-app/src/pages/Focus.jsx:88-100 | Synced settings rewind only an idle timer at the start of the old duration. A paused session keeps its time. |
| FocusTimer.SyncAgreesWithUpdate | productivity-app/src/pages/Focus.jsx:88-148 | A synced change and a local update agree exactly when the timer is running, has not started, or already shows the new duration. |
| FocusTimer.JsRem | productivity-app/src/pages/Focus.jsx:207-208 | JavaScript's `%` agrees with the mathematical remainder on non-negative numbers. |
| FocusTimer.ClockFields | productivity-app/src/pages/Focus.jsx:206-208 | For a non-negative time the fields are whole hours, minutes of the hour and seconds of the minute, and `h*3600 + m*60 + s` is the time. |
| FocusTimer.ClockShape | productivity-app/src/pages/Focus.jsx:209-210 | From one hour on the face is `h:mm:ss`, below it `m:ss`. Seconds, and the minutes in the hour form, have two digits. |
| FocusTimer.ClockRoundTrip | productivity-app/src/pages/Focus.jsx:205-211 | Reading the face back gives the seconds, for every non-negative time. |
| FocusTimer.Timer.constructor | productivity-app/src/pages/Focus.jsx:18-61 | Stored settings or the defaults, the stored running flag, the restored time, no tag selected. |
| FocusTimer.Timer.Tick | productivity-app/src/pages/Focus.jsx:177-192 | One run of the timer effect changes the state and returns the record as `Step` does. |
| FocusTimer.Timer.ToggleTimer | productivity-app/src/pages/Focus.jsx:194-196 | The state changes as `Toggle` does. |
| FocusTimer.Timer.EndSession | productivity-app/src/pages/Focus.jsx:198-203 | The state changes and the record is returned as `End` does. |
| FocusTimer.Timer.ApplySettings | productivity-app/src/pages/Focus.jsx:143-148 | The state changes as `UpdateSettings` does. |
| FocusTimer.Timer.OnSettingsSnapshot | productivity-app/src/pages/Focus.jsx:85-100 | The state changes as `SyncSettings` does. |
| FocusTimer.Timer.SelectTag | productivity-app/src/pages/Focus.jsx:273 | Only the selected tag changes. |
| FocusTimer.Timer.OnAuthChanged | productivity-app/src/pages/Focus.jsx:75-76 | Only the signed-in flag changes. |
| TagManager.TrimEmptyIffBlank | productivity-app/src/components/TagManager.jsx:30 | `!name.trim()` holds exactly for names made only of white space. |
| TagManager.AddTag | productivity-app/src/components/TagManager.jsx:29-38 | A blank name changes nothing. Otherwise exactly one tag with the name as typed and the selected colour is appended, and earlier tags stay in order. |
| TagManager.UpdateTag | productivity-app/src/components/TagManager.jsx:42-49 | Ids, length and order are kept and a blank name changes nothing. Exactly the tags with the edited id take the new name and colour; all others are unchanged. |
| TagManager.UpdateTagIdempotent | productivity-app/src/components/TagManager.jsx:42-49 | Saving the same edit twice is saving it once. |
| TagManager.RemoveTag | productivity-app/src/components/TagManager.jsx:61 | Deleting keeps exactly the tags with another id. |
| TagManager.RemoveTagAppend | productivity-app/src/components/TagManager.jsx:61 | The kept tags keep their order. |
| TagManager.RemoveAbsent | productivity-app/src/components/TagManager.jsx:61 | Deleting an id no tag has changes nothing. |
| TagManager.RemoveUndoesAdd | productivity-app/src/components/TagManager.jsx:33-61 | Deleting a tag just added under a fresh id gives back the list. |
| TagManager.EditsKeepIdsUnique | productivity-app/src/components/TagManager.jsx:33-61 | Adding under a fresh id, editing and deleting keep ids unique. |
| TagManager.TagEditor.constructor | productivity-app/src/components/TagManager.jsx:10-15 | The form starts reset with no pending delete. |
| TagManager.TagEditor.ResetForm | productivity-app/src/components/TagManager.jsx:23-27 | The name is empty, the colour is '#8B5CF6' and nothing is being edited. The tags are kept. |
| TagManager.TagEditor.HandleAddTag | productivity-app/src/components/TagManager.jsx:29-40 | The list changes as `AddTag` does. The form resets after a successful add and is untouched after a blank one. |
| TagManager.TagEditor.HandleUpdateTag | productivity-app/src/components/TagManager.jsx:42-51 | The list changes as `UpdateTag` does. The form resets after a successful update and is untouched after a blank one. |
| TagManager.TagEditor.StartEditing | productivity-app/src/components/TagManager.jsx:53-58 | The form loads the tag's name and colour and its id, and any pending delete is cancelled. |
| TagManager.TagEditor.ClickRow | productivity-app/src/components/TagManager.jsx:95 | Clicking a row that is asking to confirm a delete changes nothing. Any other row starts editing. |
| TagManager.TagEditor.RequestDelete | productivity-app/src/components/TagManager.jsx:134 | The trash button only marks the tag for confirmation. |
| TagManager.TagEditor.ConfirmDelete | productivity-app/src/components/TagManager.jsx:60-64 | The tag is removed and the pending delete cleared. The form is reset exactly when that tag was being edited. |
| TagManager.TagEditor.Submit | productivity-app/src/components/TagManager.jsx:217 | The button updates while an id is being edited and adds otherwise. A non-blank name then resets the form; a blank one leaves the form as it was. The pending delete is kept. |
| FocusSettings.Set | productivity-app/src/components/FocusSettings.jsx:5-7 | `set(key, value)` gives the named field the value and keeps every other field. |
| FocusSettings.SetOverrides | productivity-app/src/components/FocusSettings.jsx:5-7 | A later write to a key overrides an earlier one. |
| FocusSettings.SetCommutes | productivity-app/src/components/FocusSettings.jsx:5-7 | Writes to different keys commute. |
| FocusSettings.SetCurrent | productivity-app/src/components/FocusSettings.jsx:5-7 | Writing back a key's current value changes nothing. |
| FocusSettings.ToggleLongBreakTwice | productivity-app/src/components/FocusSettings.jsx:87 | The switch flips exactly the long-break flag, and flipping twice restores the settings. |
| FocusSettings.StepDown | productivity-app/src/components/FocusSettings.jsx:141 | Minus gives `max(0, value - step)`: never negative, at most one step lower. |
| FocusSettings.StepOf | productivity-app/src/components/FocusSettings.jsx:59-78 | Steps are 5 for focus duration and 1 for break duration and iterations. |
| FocusSettings.StepsUndo | productivity-app/src/components/FocusSettings.jsx:141-152 | Minus undoes plus on a non-negative value, and plus undoes minus when the value is at least one step. |
| FocusSettings.SteppersChangeOneField | productivity-app/src/components/FocusSettings.jsx:57-152 | Minus leaves the card's number non-negative and at most one step lower. Plus raises it by one step. Neither touches another key. |
| FocusSettings.DecrementUndoesIncrement | productivity-app/src/components/FocusSettings.jsx:141-152 | Minus after plus restores the settings. |
| FocusSettings.TotalTimeBlocks | productivity-app/src/components/FocusSettings.jsx:98 | With at least one iteration the total is that many focus blocks with one break fewer. With at most one iteration no break is counted. |
| FocusSettings.TotalTimeIncrement | productivity-app/src/components/FocusSettings.jsx:98 | One more iteration adds one focus block and one break. |

## Left out

- Firebase sign-in, the live snapshots and the writes (`onAuthStateChanged`, `onSnapshot`, `addDoc`, `setDoc`, `serverTimestamp`) are foreign I/O. A snapshot is a sequence of documents, and the record `saveSession` would write is a return value.
- `localStorage` is storage I/O. Only the restore arithmetic is kept, as a function of the saved fields and the current time in milliseconds.
- `setInterval`, effect scheduling and the audio cue are event timing. One tick is the method `Timer.Tick`.
- The snapshot handler of the focus page reads `timeLeft` and `isActive` from the closure of the first render, so it can see stale values. `FocusTimer.SyncSettings` uses the current state.
- Time zones, daylight-saving changes and the locale labels (`toLocaleDateString`, `toLocaleTimeString`) are left out. The calendar is the proleptic Gregorian calendar, and every local day has exactly 86,400,000 ms.
- `new Date(key)` reads a date-only key as UTC midnight, and `Math.ceil` of the difference is compared with 1. `Streaks.Adjacent` states the outcome: keys of neighbouring dates give 1. The model treats every key outside the four-digit date-only form as unparseable, so never adjacent. For such keys (years below 1000 or above 9999) an engine may fall back to its own date heuristics and parse them. The millisecond arithmetic is not redone.
- `Math.round` of the totals shown, `formatHours`, the chart geometry and percentage widths are display arithmetic. Minutes are exact `real` numbers.
- A missing `duration` counts as 0 in every view. The source adds `undefined` in the tag maps, the week and the year, which gives NaN there.
- The ids from `Date.now()` are a parameter, and the "Session Ends" clock is not modelled.
- The tag list's `updateTags` write-through to storage is I/O. The editor's list changes in place in `TagEditor`.
- TagDistribution.AccumulateSpec: for an inherited name the source's `+= s.duration` writes a `minutes` property onto the inherited object (`Object.prototype` itself for `__proto__`). That write outside the map is not modelled. Only the missing entry is.
- Engine-specific extra properties of `Object.prototype` are not modelled. `TagDistribution.InheritedNames` holds the twelve standard ones.
- A day's tag breakdown is a map. The order in which the heat map's tooltip lists it (`Object.entries`) is display and is not modelled.
- YearView.ScanYear: the scan runs over the selected year itself. The source builds its ends with `new Date(year, 0, 1)` and `new Date(year, 11, 31)`, which read years 0 to 99 as 1900 to 1999, so for those years it scans the wrong year and finds no streak. Such a year is reached only by stepping the year selector back nearly two thousand times.
- DateKeys.DateKeyOrder: string order matches calendar order only for years 1000 to 9999, because the year is not padded to four digits.
- StreakFacts.CurrentAtMostBest: stated only for maps whose keys were written by `getLocalDateKey` for four-digit years, because other keys need not parse back to their dates.
- DurationLabel.FormatMinutesRoundTrip: stated for non-negative amounts only, because the source never formats a negative duration.
- FocusTimer.ClockRoundTrip: stated for non-negative times only, because `timeLeft` stays non-negative (`FocusTimer.Step`).

## Findings

| source | as written | input that shows it | evidently intended | confidence | as-written member | corrected member |
|---|---|---|---|---|---|---|
| productivity-app/src/components/Sidebar.jsx:72 | When today falls short, the loop also passes over a short yesterday (`i === 1 && streak === 0`). It then counts the run ending two days ago. | A day map with 5 minutes two days ago and nothing since: the sidebar shows a streak of 1, and the statistics page shows 0. | Only today is forgiven, as in `calculateStreaks` (productivity-app/src/pages/Analyze.jsx:307-312). A short yesterday ends the count. | medium; not executed | Sidebar.CalculateStreakAsWritten, Sidebar.SidebarDisagreement | Sidebar.CalculateStreak, Sidebar.IntendedIsCurrent |

The sidebar's state, `Sidebar.SidebarState.OnSnapshot`, keeps the count as written, because that is the streak the sidebar shows. `Sidebar.CalculateStreak` is the corrected count, and `Sidebar.IntendedIsCurrent` proves that it is the statistics page's current streak within the days it looks at.
