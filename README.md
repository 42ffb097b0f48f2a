# megisholavonat, modelled in Dafny

megisholavonat shows Hungarian trains and suburban HÉV trains on a live map.
The Python backend fetches vehicle positions, then processes them and caches them in Redis:

- it deduplicates the positions by vehicle id;
- it attaches a county to every stop;
- it places each vehicle along its route and derives its delay;
- it drops positions that are too old.

The web client reads that cache. It then does the following:

- it classifies each vehicle as stale, inactive, far from its route or carrying suspicious data;
- it colours markers by delay;
- it filters and orders the search list;
- it drives the train panel, the tooltip, the bottom drawer, the data-age warnings and the settings.

This project models that logic as Dafny functions, methods and classes, and proves the behaviour the code promises about them.
Each modelled source file has its own module, and a few modules are shared between them:

- shared records: `Schema`, `Wrappers`;
- library behaviour the code relies on: `Strings`, `Seqs`, `Sorting`.

Structure follows the source:

- Pure rules are functions with lemmas beside them.
- The loops of the backend pipeline are methods whose loops are proved against specification functions:
  - `dedupe_by_vehicle_id`, `process_locations`, the coordinate dedupe and the stop scan;
  - the heading-aware segment search;
  - the tooltip's two scans.
- The React components whose state changes step by step are classes whose fields are that state:
  - `DragCloseDrawer`, `useMapSettings`, `SettingsComponent`;
  - storage is a string map and dispatched window events are an append-only log.

Some inputs are parameters, not modelled code:

- geometry (turf, shapely, `calculate_bearing`), as oracle functions;
- clocks, the Europe/Budapest time zone and date parsing;
- `parseFloat`, the county lookup and `localeCompare`.

## Model

| member | source | states |
|---|---|---|
| ApiMain.Capitalize | apps/api/api/main.py:22 | Python `str.capitalize` on ASCII identifiers: same length, first character upper-cased, the rest lower-cased |
| ApiMain.GenerateUniqueId | apps/api/api/main.py:17-22 | a non-empty `operation_id` is returned unchanged; otherwise the id contains no '_' |
| ApiMain.ConcatCapitalized | apps/api/api/main.py:22 | the capitalized pieces together have as many characters as the pieces |
| ApiMain.ConcatCapitalizedAppend | apps/api/api/main.py:22 | capitalizing and concatenating distributes over splitting the pieces in two: each piece is capitalized on its own |
| ApiMain.JoinedName | apps/api/api/main.py:21-22 | for any non-empty list of '_'-free words joined by '_', the id is the first word followed by every later word capitalized |
| ApiMain.NameWithoutUnderscoreUnchanged | apps/api/api/main.py:21-22 | a route name without '_' is its own operation id |
| ApiMain.ThreeWordName | apps/api/api/main.py:21-22 | `a_b_c` becomes `a + Capitalize(b) + Capitalize(c)`: first word kept, later words capitalized, separators dropped |
| ApiMain.RedisStatusExample | apps/api/api/routers/redis_test.py:12 | the route `get_redis_status` gets the operation id `getRedisStatus` |
| ApiMain.GetTrainsExample | apps/api/api/routers/trains.py:19-20 | the route `get_trains` gets the operation id `getTrains` |
| RedisKeys.AddKey | apps/api/api/core/redis.py:29-31 | the key followed by exactly one ':' |
| RedisKeys.AddKeyInjective | apps/api/api/core/redis.py:29-31 | two different keys never collide once suffixed |
| RedisKeys.TrainPositionsKeyValue | apps/api/api/routers/trains.py:28 | the shared cache key is "train-positions:" |
| ApiTime.SecondsSinceMidnight | apps/api/api/util/time.py:15-21 | hour·3600 + minute·60 + second of the Budapest time lies in [0, 86400) and is the local wall time minus its local midnight |
| ApiTime.SecondsSinceDay | apps/api/api/util/time.py:8-40 | as written, the result is always the seconds since local midnight modulo a day, and exactly that when the service date does not parse |
| ApiTime.UnparsableServiceDate | apps/api/api/util/time.py:38-40 | a service date that `strptime` rejects gives the plain seconds since local midnight |
| ApiTime.NaiveIsUtc | apps/api/api/util/time.py:12-13 | a naive datetime gives the same result as the same reading marked UTC |
| ApiTime.MicrosecondsIgnored | apps/api/api/util/time.py:19-31 | microseconds never change the result |
| ApiTime.SameOffsetCountsCalendarDays | apps/api/api/util/time.py:23-36 | while today's UTC offset equals the service date's midnight offset, the day term counts calendar days, so the result is the local time elapsed since the service date's midnight, and on the service date itself the seconds since local midnight |
| ApiTime.DaylightSavingStartLosesADay | apps/api/api/util/time.py:28-36 | as written, 10:00 local time on 31 March 2024 with that service date gives -50400, where the calendar count gives 36000 |
| ApiTime.SecondsSinceDayByCalendar | apps/api/api/util/time.py:8-40 | corrected: seconds since local midnight when the date does not parse, else local wall time minus the service date's local midnight |
| ApiTime.CalendarCountAgreesWithoutOffsetChange | apps/api/api/util/time.py:28-36 | without an offset change between the two midnights, the code as written and the corrected count agree |
| ApiVehicle.ShouldRemoveSeconds | apps/api/api/util/vehicle.py:7-16 | a position is removed iff more than 7200 s passed since `lastUpdated` (missing counts as 0) |
| ApiVehicle.ShouldRemove | apps/api/api/util/vehicle.py:7-16 | a removed position was last updated strictly before `now` (missing counts as 0) |
| ApiVehicle.ExactlyAtThresholdKept | apps/api/api/util/vehicle.py:14-16 | exactly 120 minutes is kept: the comparison is strict |
| ApiVehicle.MissingCountsAsZero | apps/api/api/util/vehicle.py:12 | a missing `lastUpdated` is judged as epoch 0 |
| ApiVehicle.ShouldRemoveMonotone | apps/api/api/util/vehicle.py:14-16 | once removable, a position stays removable as time passes |
| TrainsRouter.AgeMinutes | apps/api/api/routers/trains.py:35-36 | `data_age_ms // 60000` is the floor: 60000·m ≤ age < 60000·(m+1) |
| TrainsRouter.GetTrains | apps/api/api/routers/trains.py:19-79 | a failed read is a 500 with no locations; an empty cache answers "no data", age 0; an entry older than 15 minutes answers "no data" with no locations; otherwise the cached locations and flag (missing flag false), always with the floored age |
| TrainsRouter.AgeAtLimitServed | apps/api/api/routers/trains.py:47-68 | an entry exactly 15 minutes old is still served, with age 15 |
| TrainsRouter.AgeBeyondLimitWithheld | apps/api/api/routers/trains.py:47-57 | one millisecond later its locations are withheld and "no data" is set |
| TrainsRouter.MissingNoDataFlagDefaultsFalse | apps/api/api/routers/trains.py:65 | a fresh entry without `noDataReceived` is served as data received |
| TrainService.LatestIndex | apps/api/api/services/train_service.py:69-79 | the index the dedupe holds for an id is an entry with that (non-empty) id, or -1 |
| TrainService.LatestIndexFound | apps/api/api/services/train_service.py:70-79 | every non-empty id that occurs has a held entry |
| TrainService.LatestIndexIsLatest | apps/api/api/services/train_service.py:75-79 | the held entry has the greatest `lastUpdated` of its id, strictly greater than every earlier entry of the id (ties keep the first) |
| TrainService.FirstOccurrences | apps/api/api/services/train_service.py:69-81 | the ids in dict insertion order are distinct |
| TrainService.FirstOccurrencesIff | apps/api/api/services/train_service.py:69-81 | an id is listed iff the dedupe holds an entry for it |
| TrainService.FirstOccurrencesMembers | apps/api/api/services/train_service.py:71-73 | the listed ids are exactly the non-empty ids that occur |
| TrainService.LatestIndexStep | apps/api/api/services/train_service.py:70-79 | one more entry scanned: the held index changes only for its own id, and only when none was held or it is strictly newer |
| TrainService.FirstOccurrencesStep | apps/api/api/services/train_service.py:70-79 | one more entry scanned: its id is appended iff non-empty and new |
| TrainService.TracksKeep | apps/api/api/services/train_service.py:72-79 | skipping an id-less or not-newer entry keeps the loop invariant |
| TrainService.TracksReplace | apps/api/api/services/train_service.py:75-79 | replacing a held entry by a strictly newer one keeps the loop invariant, order unchanged |
| TrainService.TracksAdd | apps/api/api/services/train_service.py:75-79 | storing the first entry of an id appends the id and keeps the loop invariant |
| TrainService.DedupeByVehicleId | apps/api/api/services/train_service.py:63-81 | the loop over a dict returns `Deduped(locations)` |
| TrainService.DedupedAt | apps/api/api/services/train_service.py:81 | the i-th result is the held entry of the i-th listed id |
| TrainService.DedupedUniqueIds | apps/api/api/services/train_service.py:71-81 | entries without an id are dropped and no id appears twice |
| TrainService.DedupedCoversIds | apps/api/api/services/train_service.py:70-81 | every non-empty input id appears in the result |
| TrainService.DedupedKeepsLatest | apps/api/api/services/train_service.py:75-79 | each result is an input entry whose `lastUpdated` is the maximum of its id, strictly above all earlier entries of the id |
| TrainService.FirstOccurrencesInOrder | apps/api/api/services/train_service.py:69-81 | listed ids follow the order of their first occurrence in the input |
| TrainService.DedupedInOrder | apps/api/api/services/train_service.py:81 | results follow the first occurrence of their ids in the input |
| TrainService.Deduped | apps/api/api/services/train_service.py:81 | one entry per listed id: as many results as distinct non-empty ids |
| TrainService.AddCounties | apps/api/api/services/train_service.py:83-116 | same length and order; each stop's county is the lookup of its coordinates, and no other field of location, trip, stop time or stop changes |
| TrainService.AddCountiesIdempotent | apps/api/api/services/train_service.py:90-99 | enriching twice equals enriching once |
| TrainService.PyRound | apps/api/api/services/train_service.py:152 | Python `round` on a float: within 0.5 of the input, halves to the even neighbour |
| TrainService.PyRoundHalvesToEven | apps/api/api/services/train_service.py:152 | 2.5 and 1.5 round to 2, -0.5 to 0 |
| TrainService.Enrich | apps/api/api/services/train_service.py:149-158 | a copy of the position whose other fields are unchanged, carrying the delay data's position, route length, stops and progress, and a delay in whole minutes within half a minute of the delay in seconds |
| TrainService.Enriched | apps/api/api/services/train_service.py:149-158 | same length and order; each position keeps every other field and gets the rounded delay and the four fields of its own delay data |
| TrainService.ProcessLocations | apps/api/api/services/train_service.py:118-163 | the loop keeps exactly the enriched positions that `should_remove` rejects, in order |
| TrainService.FreshIsFilter | apps/api/api/services/train_service.py:160-161 | the loop's append-unless-removable equals the filter of non-removable positions |
| TrainService.ProcessedKeepsFresh | apps/api/api/services/train_service.py:118-163 | the result is an ordered subsequence of the enriched list; it contains every fresh position enriched, and nothing that is removable or not enriched |
| TrainService.EnrichedDelayRounds | apps/api/api/services/train_service.py:152 | the stored delay in minutes is within half a minute of the computed delay in seconds |
| TrainService.RefreshData | apps/api/api/services/train_service.py:165-242 | no write iff the fetched list is empty; otherwise one write under "train-positions:" of the dedupe, county and processing pipeline, stamped now, `noDataReceived` false |
| TrainService.AllIdsMissingWritesEmptyList | apps/api/api/services/train_service.py:201-233 | a non-empty fetch whose entries all lack an id still writes, an empty list |
| TrainService.Pipeline | apps/api/api/services/train_service.py:201-233 | every written position has a non-empty id, carries its delay data and is not removable at `now` |
| TrainService.RefreshThenServe | apps/api/api/services/train_service.py:228-239 | the trains endpoint serves what a refresh wrote while at most 15 minutes old, and withholds it afterwards |
| Preprocess.SwapRoundTrip | apps/api/api/util/preprocess.py:208-210 | swapping to [lon, lat] and back returns the decoded polyline |
| Preprocess.Dedup | apps/api/api/util/preprocess.py:212-219 | no coordinate twice and exactly the input's coordinates |
| Preprocess.UniqueCoords | apps/api/api/util/preprocess.py:212-219 | the loop with its `seen` set returns `Dedup` of its input |
| Preprocess.DedupInFirstOccurrenceOrder | apps/api/api/util/preprocess.py:212-219 | kept coordinates follow their first occurrence in the input |
| Preprocess.ByDistanceIsTotalPreorder | apps/api/api/util/preprocess.py:132 | ordering by `distanceAlongRoute` is a total preorder |
| Preprocess.SnapStops | apps/api/api/util/preprocess.py:108-134 | fewer than two route points give no stops; otherwise a permutation of the stops projected onto the line |
| Preprocess.SnapStopsAscending | apps/api/api/util/preprocess.py:114-132 | one result per stop (none below two route points), ascending by distance along the route |
| Preprocess.FirstBeyond | apps/api/api/util/preprocess.py:163-168 | index of the first stop strictly beyond the vehicle, all earlier ones at or before it, or -1 |
| Preprocess.ScanStops | apps/api/api/util/preprocess.py:160-168 | the loop with `break` yields the last stop taken and the first stop beyond the vehicle |
| Preprocess.ProgressAt | apps/api/api/util/preprocess.py:160-190 | both stop ids are ids of the snapped stops; with no stop beyond the vehicle both are the final stop at progress 1, otherwise the next stop is the first stop beyond it |
| Preprocess.VehicleProgressFor | apps/api/api/util/preprocess.py:137-190 | no stops or fewer than two route points give empty ids at progress 0; otherwise both ids are ids of the snapped stops |
| Preprocess.GetVehicleProgress | apps/api/api/util/preprocess.py:137-190 | returns `VehicleProgressFor` of its inputs; no stops or fewer than two route points give ("", "", 0) |
| Preprocess.NothingAheadIsFinalStop | apps/api/api/util/preprocess.py:170-172 | with no stop beyond the vehicle, last and next are the final stop and progress is 1 |
| Preprocess.BeforeFirstStop | apps/api/api/util/preprocess.py:160-168 | before the first stop, last and next are both the first stop and progress is 1, by the zero-length-leg branch |
| Preprocess.ScanFindsSurroundingStops | apps/api/api/util/preprocess.py:160-168 | on ascending stops, `last` is the last stop at or before the vehicle (or the first stop) and `next` the first beyond it |
| Preprocess.ProgressWithinLeg | apps/api/api/util/preprocess.py:174-184 | between two ascending stops the progress lies in [0, 1] |
| Preprocess.HeadingDiff | apps/api/api/util/preprocess.py:57-59 | the folded angle difference of two bearings in [0, 360) lies in [0, 180] |
| Preprocess.HeadingDiffSymmetric | apps/api/api/util/preprocess.py:57-59 | the folded difference is symmetric and zero on equal bearings |
| Preprocess.OppositeNotAligned | apps/api/api/util/preprocess.py:57-63 | opposite bearings differ by 180, so they fail the `<= 90` alignment test |
| Preprocess.HeadingDiffOpposite | apps/api/api/util/preprocess.py:57-59 | reversing a bearing turns its folded difference to a heading into 180 minus that difference |
| Preprocess.EndOfLineSampleRunsBackwards | apps/api/api/util/preprocess.py:43-63 | at the line's end the sampled direction is the reverse of the route's last stretch, so a heading aligned with the route is judged misaligned |
| Preprocess.EndOfLineRecoveredBySearch | apps/api/api/util/preprocess.py:43-105 | at the end of a straight line the sampled direction opposes the heading (difference 180), and the segment search still returns the end point's distance |
| Preprocess.SearchAfter | apps/api/api/util/preprocess.py:67-103 | after n segments the search found a segment iff it holds a minimum distance, and its chosen segment is among the n |
| Preprocess.SearchPicksNearestUsable | apps/api/api/util/preprocess.py:74-103 | the chosen segment is non-degenerate, aligned with the heading, and nearest among such segments, the earliest on ties |
| Preprocess.SearchDistanceAlongRoute | apps/api/api/util/preprocess.py:72-103 | `current_len` is the length of the segments before the current one, and a found `best_dist` is that prefix length at the chosen segment plus the projection onto it; without a find it stays the default |
| Preprocess.NearestUsable | apps/api/api/util/preprocess.py:74-103 | when some scanned segment is usable, the search finds the first nearest usable one and stores its prefix length plus projection |
| Preprocess.MisalignedHeadingUsesNearestSegment | apps/api/api/util/preprocess.py:62-105 | a misaligned heading with a usable segment gives the distance along the route to the projection onto the first nearest usable segment |
| Preprocess.NoUsableSegmentKeepsDefault | apps/api/api/util/preprocess.py:65-105 | a misaligned heading with no usable segment keeps the plain projection |
| Preprocess.DefaultProjectionKept | apps/api/api/util/preprocess.py:36-63 | with no heading, or a heading within 90 degrees of the route direction, the plain projection is returned |
| Preprocess.SearchSegments | apps/api/api/util/preprocess.py:67-105 | the segment loop ends in the state `SearchAfter` specifies |
| Preprocess.ProjectWithHeading | apps/api/api/util/preprocess.py:29-105 | returns `ProjectedDistance` of its inputs |
| Preprocess.StopTimeNamed | apps/api/api/util/preprocess.py:265-280 | `next(...)` by stop name: a stop time with that name that no earlier stop time shares (the first match), or none iff no stop time has it |
| Preprocess.InterpolatedDelayBetween | apps/api/api/util/preprocess.py:282-292 | with both stop times found and progress in [0, 1], the delay lies between the delays against the next arrival and the previous departure, and equals them at progress 1 and 0 |
| Preprocess.InterpolatedBetween | apps/api/api/util/preprocess.py:286-292 | the linear interpolation lies between its endpoints and meets them at 0 and 1 |
| Preprocess.UnknownStopNoDelay | apps/api/api/util/preprocess.py:263-282 | when no stop time has the last stop's name, or none has the next stop's name, the delay stays 0 |
| Preprocess.InterpolatedDelay | apps/api/api/util/preprocess.py:263-292 | 0 when either stop time is missing; with both found, the delay against the last stop's departure at progress 0 and against the next stop's arrival at progress 1 |
| Preprocess.TotalRouteDistance | apps/api/api/util/preprocess.py:258-260 | the greatest distance along the route among the stops, or 0 without stops |
| Preprocess.GetDelayAndPosition | apps/api/api/util/preprocess.py:196-300 | composes the steps: deduplicated swapped coordinates, snapped stops with their stop time attached, progress, heading-aware position (0 below two points), maximum distance and interpolated delay at the corrected service-day time |
| WebVehicle.IsStale | apps/web/src/util/vehicle.ts:70-76 | stale iff more than 30 minutes since `lastUpdated` |
| WebVehicle.ShouldRemove | apps/web/src/util/vehicle.ts:78-86 | removable iff more than 120 minutes since `lastUpdated` |
| WebVehicle.ShouldRemoveImpliesStale | apps/web/src/util/vehicle.ts:70-86 | a removable vehicle is stale at the same time |
| WebVehicle.KeepMultiplesCount | apps/web/src/util/vehicle.ts:206-212 | keeping indices divisible by the stride keeps at most ceil(n / stride) points |
| WebVehicle.KeepMultiplesSubsequence | apps/web/src/util/vehicle.ts:206-212 | the kept points are an ordered subsequence of the input |
| WebVehicle.KeepMultiples | apps/web/src/util/vehicle.ts:208-212 | never more points than remain from the start index, each one a point of the input |
| WebVehicle.Downsample | apps/web/src/util/vehicle.ts:204-213 | never more points than the input, all taken from it, and the input itself when it has at most 1000 points |
| WebVehicle.DownsampleProperties | apps/web/src/util/vehicle.ts:204-213 | from at least two points the down-sampling keeps 2 to 1000 points (never more than the input), keeps the first point and is an ordered subsequence |
| WebVehicle.BoundingBox | apps/web/src/util/vehicle.ts:223 | `turf.bbox` bounds every point and each bound is attained |
| WebVehicle.LonLatPoints | apps/web/src/util/vehicle.ts:190-198 | one point per numeric decoded vertex, in input order: the vertex at index i becomes point number (numeric vertices before i), with latitude and longitude swapped; the points are exactly the numeric vertices |
| WebVehicle.NumericCountIncreases | apps/web/src/util/vehicle.ts:190-198 | a numeric vertex raises the count of numeric vertices before any later index, so distinct numeric vertices land at distinct points |
| WebVehicle.RouteLine | apps/web/src/util/vehicle.ts:176-217 | a route line, when there is one, has at least two points |
| WebVehicle.IsFarFromRoute | apps/web/src/util/vehicle.ts:170-247 | false without geometry or a usable line; true outside the buffered bounding box; inside it with a measured distance, true iff that distance exceeds the threshold; when turf throws, true iff outside the box |
| WebVehicle.FewValidPointsNotFar | apps/web/src/util/vehicle.ts:200-202 | fewer than two numeric vertices never make a vehicle far |
| WebVehicle.OnRouteNotFar | apps/web/src/util/vehicle.ts:235-243 | a vehicle on the line, inside the box, is not far |
| WebVehicle.IsActive | apps/web/src/util/vehicle.ts:10-68 | active without stops; inactive when far from the route, waiting within 1000 m of the first stop before its departure, or within 1000 m of the last stop; inactive only in those cases |
| WebVehicle.WaitingAtOrigin | apps/web/src/util/vehicle.ts:26-46 | waiting only with a known clock and a departure time at the first stop that lies ahead (realtime, else scheduled) |
| WebVehicle.ArrivedAtDestination | apps/web/src/util/vehicle.ts:48-64 | for a one-stop trip, arrived iff within 1000 m of that stop |
| WebVehicle.RoundMinutes | apps/web/src/util/vehicle.ts:151-153 | `Math.round(x / 60)` is the nearest minute, halves up |
| WebVehicle.AllRealtimeMatchIff | apps/web/src/util/vehicle.ts:99-117 | rule A's filter-and-every test holds iff some stop has realtime data and every such stop matches its schedule (a missing side counts as matching) |
| WebVehicle.AllRealtimeMatch | apps/web/src/util/vehicle.ts:99-117 | a match needs some stop with realtime data whose realtime times agree with the schedule |
| WebVehicle.ScheduleDelayDisagrees | apps/web/src/util/vehicle.ts:131-165 | rule B fires if and only if there is a relevant stop with truthy scheduled and real-time times, real time at least 30 s behind schedule, a delay above 10 minutes, and the delay more than 5 minutes away from the rounded lag |
| WebVehicle.RoundedPositive | apps/web/src/util/vehicle.ts:151-156 | the lag rounded to minutes is positive exactly when it is at least 30 s |
| WebVehicle.ScheduleLagWithLargeDelayIsFlagged | apps/web/src/util/vehicle.ts:88-168 | a fresh vehicle 20 minutes late whose relevant stop is only 3 minutes behind schedule is flagged |
| WebVehicle.RelevantStop | apps/web/src/util/vehicle.ts:132-142 | the first stop arriving at or after now, else the first departing at or after now, with truthy times; none iff no stop does either |
| WebVehicle.DataAppearsFalsified | apps/web/src/util/vehicle.ts:88-168 | false when stale or delay ≤ 2; true under rule A with delay > 5; true when fresh, delay > 2 and rule B fires; otherwise true only by rule A or by rule B with delay > 10 |
| WebVehicle.ZeroDeviationWithLargeDelayIsFlagged | apps/web/src/util/vehicle.ts:98-121 | realtime equal to schedule at every stop with a reported 20-minute delay is flagged |
| WebVehicle.VehicleTypeOf | apps/web/src/util/vehicle.ts:249-258 | hev iff the long name starts with "H", tram-train iff it is exactly "1", train otherwise |
| WebTime.SecondsSinceDay | apps/web/src/util/time.ts:5-21 | None iff the service date gives NaN; otherwise the whole-day count is the floor of Luxon's day difference and the remainder is the local seconds of day |
| WebTime.SecondsSinceDayOnServiceDate | apps/web/src/util/time.ts:12-20 | on the service date itself, the seconds since local midnight |
| WebTime.JsRem | apps/web/src/util/time.ts:24-25 | JavaScript `%`: the Euclidean remainder for non-negative input, strictly inside (-b, b) |
| WebTime.TwoDigits | apps/web/src/util/time.ts:27-28 | at least two characters, all decimal digits for a non-negative field |
| WebTime.FormatSecondsAsTime | apps/web/src/util/time.ts:23-31 | always contains ':'; from a non-negative time five characters with the colon at index 2 |
| WebTime.TwoDigitsOfSmall | apps/web/src/util/time.ts:27-28 | a field below 100 renders as two digits that read back as the field |
| WebTime.FormatSecondsAsTimeShape | apps/web/src/util/time.ts:23-31 | for s ≥ 0 the text is "HH:MM" with hour floor(s/3600) mod 24 and minute floor((s mod 3600)/60) |
| WebTime.FormatSecondsAsTimeTruncates | apps/web/src/util/time.ts:24-25 | seconds are truncated: f(s) = f(s − s mod 60) |
| WebTime.TruncatedFields | apps/web/src/util/time.ts:24-25 | dropping the seconds keeps the hour and minute fields of a non-negative time |
| WebTime.FormatSecondsAsTimeWraps | apps/web/src/util/time.ts:24 | 90000 s shows as "01:00" |
| DelayBands.Severity | apps/web/src/util/constants.ts:1-3 | band 3 iff delay ≥ 60, at least 2 iff ≥ 15, at least 1 iff ≥ 5 |
| DelayBands.SeverityMonotone | apps/web/src/util/constants.ts:1-3 | a larger delay never falls into a lower band |
| Icon.DelayColor | apps/web/src/util/icon.ts:163-185 | one of five colours; grey when stale; green when inactive; otherwise the palette colour of the delay's band |
| Icon.DelayColorMonotone | apps/web/src/util/icon.ts:176-184 | for active, current trains a larger delay never gives a less severe colour |
| DelayLegend.WarningBands | apps/web/src/components/information/DelayLegend.tsx:33-38 | very old implies outdated; the floating warning shows iff very old with trains; the inline one iff outdated but not very old; never both |
| DelayLegend.IsOutdated | apps/web/src/components/information/DelayLegend.tsx:34 | outdated iff an age is known and above 1 minute |
| DelayLegend.IsVeryOld | apps/web/src/components/information/DelayLegend.tsx:35 | very old iff an age of at least 15 minutes is known, and then also outdated |
| DelayLegend.ShowWarningAbove | apps/web/src/components/information/DelayLegend.tsx:38 | the floating warning needs trains on the map and an age of at least 15 minutes, and implies outdated |
| DelayLegend.ShowInlineWarning | apps/web/src/components/information/DelayLegend.tsx:118 | the inline warning iff an age of at least 2 and below 15 minutes is known |
| DelayLegend.ToggleIcon | apps/web/src/components/information/DelayLegend.tsx:86-92 | chevron iff open; when closed, exclamation iff outdated |
| NoDataDialog.Message | apps/web/src/components/information/NoDataDialog.tsx:24-39 | the stale message iff an age above 0 is known, carrying that age; the generic message for no age or age 0 |
| NoDataDialog.IsStaleData | apps/web/src/components/information/NoDataDialog.tsx:25 | stale iff an age above 0 is known; outdated in the legend implies stale here |
| NoDataDialog.StaleVersusOutdated | apps/web/src/components/information/NoDataDialog.tsx:25 | outdated implies stale here; stale but not outdated iff the age is exactly 1 |
| DragModal.Height | apps/web/src/components/information/DragModal.tsx:29-34 | every state has one of the three heights |
| DragModal.HeightInjective | apps/web/src/components/information/DragModal.tsx:30-34 | different states have different heights |
| DragModal.StepDown | apps/web/src/components/information/DragModal.tsx:133-139 | one height lower, staying at collapsed |
| DragModal.StepUp | apps/web/src/components/information/DragModal.tsx:153-159 | one height higher, staying at expanded |
| DragModal.StepsUndo | apps/web/src/components/information/DragModal.tsx:133-159 | up then down (or down then up) returns to the state where the first step moved, in particular from normal |
| DragModal.DragEnd | apps/web/src/components/information/DragModal.tsx:87-105 | a short drag changes nothing; a drag of 100 down steps down or closes iff collapsed; a drag of 100 up steps up, changing nothing iff expanded |
| DragModal.LongDragMoves | apps/web/src/components/information/DragModal.tsx:88-104 | a long drag always has an effect except upwards from expanded |
| DragModal.Drawer.constructor | apps/web/src/components/information/DragModal.tsx:36-46 | starts in the initial state, nothing notified |
| DragModal.Drawer.HandleStateChange | apps/web/src/components/information/DragModal.tsx:55-58 | sets the state and notifies it |
| DragModal.Drawer.Open | apps/web/src/components/information/DragModal.tsx:48-53 | opening a closed drawer resets it to the initial state without notifying; opening an open one changes nothing, since the effect runs only when `open` changes |
| DragModal.Drawer.OnDragEnd | apps/web/src/components/information/DragModal.tsx:87-105 | applies `DragEnd`: a new state is notified; closing keeps the state and notifies nothing |
| DragModal.Drawer.Down | apps/web/src/components/information/DragModal.tsx:132-146 | steps down and notifies, does nothing at collapsed, never closes |
| DragModal.Drawer.Up | apps/web/src/components/information/DragModal.tsx:152-166 | steps up and notifies, does nothing at expanded, never closes |
| DragModal.Drawer.Close | apps/web/src/components/information/DragModal.tsx:174-175 | closes without changing or notifying the state |
| DragModal.UpThenDown | apps/web/src/components/information/DragModal.tsx:132-166 | from normal, up then down returns to normal, notifying expanded then normal |
| TrainPanel.PaddedNumber | apps/web/src/components/information/TrainPanel.tsx:48-51 | the numeric part padded to at least 12 characters |
| TrainPanel.Layout | apps/web/src/components/information/TrainPanel.tsx:53-60 | 16 characters with spaces at 2, 5 and 10 and '-' at 14 |
| TrainPanel.FormatUICCode | apps/web/src/components/information/TrainPanel.tsx:46-63 | always 16 characters in the "XX XX XXXX XXX-X" shape |
| TrainPanel.UnformatLayout | apps/web/src/components/information/TrainPanel.tsx:53-60 | removing the separators gives back the first 12 characters |
| TrainPanel.UnformatFormat | apps/web/src/components/information/TrainPanel.tsx:46-63 | removing the separators from the output gives the first 12 characters of the padded number |
| TrainPanel.NumericPartWithoutColon | apps/web/src/components/information/TrainPanel.tsx:48 | an id without ':' is its own numeric part |
| TrainPanel.NumericPart | apps/web/src/components/information/TrainPanel.tsx:48 | empty only for an empty id; a part other than the whole id contains no ':' |
| TrainPanel.ShortNumberKept | apps/web/src/components/information/TrainPanel.tsx:48-60 | a numeric part of at most 12 characters appears whole after leading zeros |
| TrainPanel.DelayColor | apps/web/src/components/information/TrainPanel.tsx:65-75 | the shade of the delay's band, dark or light |
| TrainPanel.DarkBackgroundKeepsBand | apps/web/src/components/information/TrainPanel.tsx:65-75 | the background changes the shade, never the band |
| TrainPanel.PanelMatchesMarker | apps/web/src/components/information/TrainPanel.tsx:65-75 | the panel's band equals the map marker's band for an active, current train |
| TrainPanel.TimeDisplayDelay | apps/web/src/components/information/TrainPanel.tsx:85-91 | a dash iff either time is null or 0; otherwise the difference rounded to the nearest minute |
| TrainPanel.TimeDisplayRoundsHalfUp | apps/web/src/components/information/TrainPanel.tsx:91 | +90 s shows 2 minutes and -30 s shows 0 |
| TrainPanel.ServicePartition | apps/web/src/components/information/TrainPanel.tsx:202-215 | every info service lands in exactly one of the whole-trip and per-stop lists |
| TrainPanel.AllStopsServices | apps/web/src/components/information/TrainPanel.tsx:202-207 | a service is listed iff it is an info service spanning the first to the last stop |
| TrainPanel.SpecificStopServices | apps/web/src/components/information/TrainPanel.tsx:209-215 | a service is listed iff it is an info service not spanning the whole trip |
| TrainPanel.ServicesForStop | apps/web/src/components/information/TrainPanel.tsx:218-224 | exactly the per-stop services whose range covers the stop |
| TrainPanel.ServicesForStopInOrder | apps/web/src/components/information/TrainPanel.tsx:218-224 | in their original order |
| TrainPanel.ProcessedStopFor | apps/web/src/components/information/TrainPanel.tsx:510-513 | a processed stop with the stop's name that no earlier processed stop shares (the first match), none iff there is none |
| TrainPanel.HasPassed | apps/web/src/components/information/TrainPanel.tsx:515-519 | passed only if a processed stop of that name lies behind the train; never without one |
| TrainPanel.HasPassedUniqueIds | apps/web/src/components/information/TrainPanel.tsx:510-519 | with unique names, passed iff the train is beyond that stop |
| TrainPanel.TrainPositionPercent | apps/web/src/components/information/TrainPanel.tsx:521-554 | a percentage in [0, 100], or NaN; 0 unless the train is between this row's stop and the next |
| TrainPanel.PercentIsCoveredFraction | apps/web/src/components/information/TrainPanel.tsx:532-553 | between the stops it is the covered fraction of the leg times 100; a zero-length leg gives NaN |
| Search.ShortenName | apps/web/src/components/information/SearchComponent.tsx:49-54 | names up to 15 characters unchanged; longer ones become their first 12 characters plus "..." |
| Search.StationRoute | apps/web/src/components/information/SearchComponent.tsx:40-57 | none iff there are no stops or the first or last name is empty; else first, arrow, last |
| Search.SanitizeQuery | apps/web/src/components/information/SearchComponent.tsx:148-150 | the query without spaces or hyphens |
| Search.VehicleIdMatches | apps/web/src/components/information/SearchComponent.tsx:142-152 | true iff the id is longer than 2 and the sanitized query occurs in it after its first two characters |
| Search.Matches | apps/web/src/components/information/SearchComponent.tsx:133-174 | a blank query matches; a non-blank query matches if and only if the lowered query occurs in the lowered trip name, the lowered route name, the vehicle id after its prefix, or (with stop times) the lowered first or last stop name |
| Search.BlankQueryKeepsAll | apps/web/src/components/information/SearchComponent.tsx:134 | a blank query keeps every location in order |
| Search.MatchesIgnoresQueryCase | apps/web/src/components/information/SearchComponent.tsx:136-174 | the query's case does not matter |
| Search.SeparatorQueryMatchesLongIds | apps/web/src/components/information/SearchComponent.tsx:142-152 | a query of only spaces and hyphens matches every id longer than 2 characters |
| Search.DescendingNegates | apps/web/src/components/information/SearchComponent.tsx:183-203 | "desc" negates the comparison; "delay" and "speed" compare by numeric difference |
| Search.Compare | apps/web/src/components/information/SearchComponent.tsx:183-203 | the sign orders by trip number (collation), delay or speed, reversed for "desc"; a speed comparison is -1, 0 or 1 |
| Search.ComparatorIsTotalPreorder | apps/web/src/components/information/SearchComponent.tsx:182-204 | each comparator is a total preorder (for "number" when the collation is one) |
| Search.Filtered | apps/web/src/components/information/SearchComponent.tsx:131-175 | exactly the matching locations |
| Search.SortFlaggedLast | apps/web/src/components/information/SearchComponent.tsx:177-232 | sorting the two groups and concatenating them is a permutation with every flagged element after every unflagged one |
| Search.FilteredAndSorted | apps/web/src/components/information/SearchComponent.tsx:131-232 | a permutation of the matches in which no stale train precedes a current one |
| Search.FilteredAndSortedOrdered | apps/web/src/components/information/SearchComponent.tsx:177-232 | the current part and the stale part are each sorted by the chosen comparator |
| TrainTooltip.FindStart | apps/web/src/components/map/TrainTooltip.tsx:20-29 | the smallest index of a capital pair, or -1 iff there is none |
| TrainTooltip.FindEnd | apps/web/src/components/map/TrainTooltip.tsx:31-40 | one past the largest index of a capital pair, or -1 iff there is none |
| TrainTooltip.ScansDelimitPairs | apps/web/src/components/map/TrainTooltip.tsx:21-46 | the guard holds iff a pair exists (so `startPos <= endPos` never fails), and the substring runs from the first pair to the last |
| TrainTooltip.ExtractedText | apps/web/src/components/map/TrainTooltip.tsx:20-46 | none iff there is no capital pair; else the text from the first pair to the last, starting and ending with a pair |
| TrainTooltip.TrainTooltipFor | apps/web/src/components/map/TrainTooltip.tsx:12-57 | hidden iff tooltips are off; no name part for an empty trip name; the TramTrain label iff the name ends with "TramTrain"; the extracted text is absent iff the name has no capital pair, and otherwise is the stretch from the first capital pair to the last |
| SettingsStore.StorageKey | apps/web/src/components/settings/SettingsComponent.tsx:85-87 | "mhav.settings." followed by the name |
| SettingsStore.StorageKeyInjective | apps/web/src/components/settings/SettingsComponent.tsx:85-87 | different names have different storage keys |
| SettingsStore.BoolToString | apps/web/src/components/settings/SettingsComponent.tsx:207 | `toString` of a flag is "true" iff the flag is true |
| SettingsStore.StoredFlagRoundTrip | apps/web/src/hooks/useMapSettings.ts:27-29 | a flag written as text reads back as the same flag |
| MapSettings.MapSettingsHook.constructor | apps/web/src/hooks/useMapSettings.ts:11-23 | the initial state: everything on, opacity 0.9, OpenStreetMap |
| MapSettings.MapSettingsHook.Load | apps/web/src/hooks/useMapSettings.ts:25-81 | each flag is "stored text is true", absent means true; tooltip off on mobile; opacity parsed or 0.9; base map adopted only if it is a known key |
| MapSettings.MapSettingsHook.Handle | apps/web/src/hooks/useMapSettings.ts:83-196 | each event overwrites exactly its own piece of state (the tooltip stays off on mobile) |
| MapSettings.LoadEmpty | apps/web/src/hooks/useMapSettings.ts:25-81 | loading from empty storage keeps the initial state, with the tooltip off on mobile |
| MapSettings.UnknownBaseMap | apps/web/src/hooks/useMapSettings.ts:66-70 | an unknown stored base map is ignored on load, while the change event adopts any key |
| SettingsPanel.StoredValue | apps/web/src/components/settings/SettingsComponent.tsx:85-101 | an absent key contributes nothing; a base map contributes only a known key |
| SettingsPanel.Loaded | apps/web/src/components/settings/SettingsComponent.tsx:80-111 | the loaded base map is always known, and the tooltip is off on mobile |
| SettingsPanel.LoadedFromEmpty | apps/web/src/components/settings/SettingsComponent.tsx:50-59 | empty storage gives the defaults (opacity 0.7), tooltip off on mobile |
| SettingsPanel.LoadedReadsBackFlag | apps/web/src/components/settings/SettingsComponent.tsx:84-104 | a flag saved by `updateSetting` loads back as itself |
| SettingsPanel.VehicleTypeAnnouncement | apps/web/src/components/settings/SettingsComponent.tsx:227-249 | a vehicle-type change announces all three types, the changed one with its new value |
| SettingsPanel.CollectStored | apps/web/src/components/settings/SettingsComponent.tsx:82-102 | the `forEach` over the keys builds `CollectedFrom` of the storage |
| SettingsPanel.CollectedHas | apps/web/src/components/settings/SettingsComponent.tsx:84-102 | a key is collected iff it is scanned and contributes a value, and it holds that value |
| SettingsPanel.FlagField | apps/web/src/components/settings/SettingsComponent.tsx:98-100 | a merged flag is "stored text is true", absent means the default true |
| SettingsPanel.OpacityField | apps/web/src/components/settings/SettingsComponent.tsx:90-91 | the merged opacity is the parsed stored text, else the default |
| SettingsPanel.BaseMapField | apps/web/src/components/settings/SettingsComponent.tsx:92-97 | the merged base map is the stored known key, else the default |
| SettingsPanel.MergeCollected | apps/web/src/components/settings/SettingsComponent.tsx:104 | `{ ...defaultSettings, ...storedSettings }` of a faithful collection is `Loaded` |
| SettingsPanel.MergeAllKeys | apps/web/src/components/settings/SettingsComponent.tsx:84-104 | merging what the scan over all keys collects gives `Loaded` |
| SettingsPanel.Panel.constructor | apps/web/src/components/settings/SettingsComponent.tsx:68-76 | starts with the defaults and the slider at the default opacity |
| SettingsPanel.Panel.LoadSettings | apps/web/src/components/settings/SettingsComponent.tsx:80-117 | the settings become `Loaded` and the slider follows the loaded opacity; storage and events are unchanged |
| SettingsPanel.Panel.AnnounceTooltip | apps/web/src/components/settings/SettingsComponent.tsx:119-127 | announces the effective tooltip setting, off on mobile |
| SettingsPanel.Panel.UpdateSetting | apps/web/src/components/settings/SettingsComponent.tsx:190-264 | a tooltip change on mobile does nothing; an opacity change only moves the slider; otherwise the storage key and the setting are updated and exactly one matching event is appended |
| SettingsPanel.Panel.CommitOpacity | apps/web/src/components/settings/SettingsComponent.tsx:171-185 | the debounced commit stores, sets and announces the opacity |
| Sorting.Sort | apps/web/src/components/information/SearchComponent.tsx:182 | `Array.prototype.sort` returns a permutation of its input |
| Sorting.SortSorted | apps/web/src/components/information/SearchComponent.tsx:182-204 | under a total preorder the result is sorted |
| Sorting.NegatedPreorder | apps/web/src/components/information/SearchComponent.tsx:203 | negating a total preorder gives one |
| Seqs.FilterPartition | apps/web/src/components/information/SearchComponent.tsx:177-178 | complementary filters split a list exactly |
| Seqs.FilterIsSubsequence | apps/web/src/components/information/TrainPanel.tsx:219-223 | a filter keeps order |
| Strings.Split | apps/api/api/main.py:21 | one-character `split`: at least one piece, none containing the separator |
| Strings.JoinSplit | apps/api/api/main.py:21 | joining the pieces with the separator gives back the string |
| Strings.SplitJoin | apps/api/api/main.py:21 | splitting pieces joined by a separator none of them contains gives back the pieces |
| Strings.PadStart | apps/web/src/components/information/TrainPanel.tsx:51 | `padStart`: the string right-aligned after pad characters |
| Strings.RemoveAll | apps/web/src/components/information/SearchComponent.tsx:148-150 | `replaceAll(c, "")` removes exactly the character `c` |
| Strings.ToLowerCaseIdempotent | apps/web/src/components/information/SearchComponent.tsx:136 | lower-casing twice equals lower-casing once |
| Strings.ContainsIffOccurs | apps/web/src/components/information/SearchComponent.tsx:151 | `includes` holds iff the query occurs at some index |
| Strings.ParseNatToString | apps/web/src/util/time.ts:27-28 | `String(n)` reads back as n |

## Findings

| source | as written | input that shows it | evidently intended | confidence | as-written member | corrected member |
|---|---|---|---|---|---|---|
| apps/api/api/util/time.py:28-36 | today's midnight is made by `replace`, which keeps the UTC offset of the current time, while the service date's midnight is localized with its own offset; across a daylight-saving change the difference is an hour short of a whole day and `timedelta.days` floors it one day too low | service date 2024-03-31 at 10:00 Budapest time (UTC+2, midnight at UTC+1) gives -50400 instead of 36000 | count local calendar days from the service date ("for accurate day diff") | not executed | ApiTime.SecondsSinceDay, shown by ApiTime.DaylightSavingStartLosesADay | ApiTime.SecondsSinceDayByCalendar |

`Preprocess.GetDelayAndPosition` computes the current time with the corrected function.
`ApiTime.CalendarCountAgreesWithoutOffsetChange` shows that the two versions agree whenever no offset change falls between the two midnights.

## Left out

- Geometry is left to parameters. Shapely's `project`, `interpolate`, `length` and `distance`, turf's `distance`, `nearestPointOnLine` and `bbox` input, and the trigonometry of `calculate_bearing` are oracle functions of a `Geometry` value. Their numeric properties are not modelled. `seg_len` is taken as the oracle length of the two-point line.
- Polyline decoding (`polyline.decode`, `decodePolyline`) is an oracle. Its failures are `None`, and NaN vertices are a separate case.
- Floating point is modelled as exact `real` arithmetic. NaN appears only where the code can produce it: an unparsable date in Luxon, and a zero-length leg in the panel percentage. A third source is not modelled: `parseFloat` of stored opacity text that is not a number gives NaN (apps/web/src/hooks/useMapSettings.ts:48, apps/web/src/components/settings/SettingsComponent.tsx:91), while the model's `parseFloat` parameter always returns a real.
- Clocks are parameters: `Date.now()`, `time.time()` and the browser's local midnight. One `now` is used for every position of a refresh, while the source reads the clock again for each position.
- Time zones and date parsing are parameters: Luxon's fields and day difference, and the Europe/Budapest offsets as pytz applies them. `strptime` is a function from strings to day numbers.
- `get_delay_and_position` with a missing `serviceDate` raises a `TypeError` in `strptime`. The model takes the service date as a string.
- `Preprocess.InterpolatedDelay`: a present but null `scheduledDeparture` or `scheduledArrival` is read as 0. In the source, `.get(key, 0)` returns None there, and the subtraction then raises.
- `TrainService.ProcessLocations`: `get_delay_and_position` is the parameter `delayOf`, applied to each position. Its own behaviour is `Preprocess.GetDelayAndPosition`.
- The county lookup (`get_county_for_point`) is an oracle of the stop's coordinates.
- The GraphQL fetch, Redis I/O, JSON encoding, the cache expiry (`CACHE_DURATION`), logging and the task scheduler are left out. A refresh is its input list and its optional write. The endpoint's cache read is a value that may have failed.
- `Search.Compare`: `localeCompare` with numeric collation is a parameter `collate`. Lower-casing covers ASCII and the Hungarian accented letters only.
- `Array.prototype.sort` is modelled as an insertion sort on values. In-place mutation of the filtered arrays is not modelled.
- Sorting.Sort: stability (elements that compare equal keep their input order, as JavaScript and Python guarantee) is not stated; the contracts give a permutation, sorted under a total preorder.
- The opacity debounce timer (300 ms) is left out. `SettingsPanel.Panel.CommitOpacity` is what the timer runs when it fires.
- SettingsPanel.Panel.CommitOpacity: it merges the opacity into the settings current when the timer fires. The source's debounced closure merges it into the `settings` captured when the slider last moved, so a setting changed inside the 300 ms window can be reverted there.
- Preprocess.GetDelayAndPosition: the current time comes from `ApiTime.SecondsSinceDayByCalendar`, not from the code as written. Across a daylight-saving change the two differ: on 31 March 2024 at 10:00 local time the source gives -50400 and the model 36000 (see Findings).
- ApiMain.Capitalize: upper- and lower-casing cover ASCII letters only; Python's Unicode case mapping is not modelled.
- Search.SanitizeQuery and `Strings.IsBlank`: strings are sequences of characters, while JavaScript lengths and indices count UTF-16 code units. `trim` is modelled on ASCII whitespace, no-break space, the byte-order mark and the line and paragraph separators. JavaScript also strips the other Unicode space separators (U+1680, U+2000 to U+200A, U+202F, U+205F, U+3000).
- Rendering, animation, translations, theming, the changelog fetch and locale switching are not part of this model.
- `apps/api/api/tasks/data.py`, the scheduled task `revalidate_data`, calls `train_service.revalidate_cache()`. `TrainService` (apps/api/api/services/train_service.py:22-242) defines no such method, so as written the task would raise `AttributeError` (observed by reading, not executed). The task is not part of this model, and nothing in it calls `refresh_data`.
