# cycletime, modelled in Dafny

cycletime estimates how long a bicycle ride along a GPX track takes. The
track's points are cut into groups, each closed as soon as its distance
exceeds a minimum, consecutive groups sharing their boundary point; each
group becomes a segment with a length, a slope (`pente`, in percent), the
speed at which a rider of given power, weight, friction and air penetration
balances the power needed (stepped up by 0.5 km/h and capped at a maximum
speed) and a duration. Segments of zero duration are dropped and the rest
are threaded into a profile of cumulative distance and time. Aggregates are
the total distance, the positive elevation gain and the total time in hours
and minutes. An elevation chart plots the profile on a time axis whose tick
labels are durations in milliseconds, and a mouse handler copies the
hovered segment's speed and start coordinates into a reactive "current
point".

The model has three modules:

- `Geo` (`geo.dfy`): the profile builder — path length, the segmentation
  fold (a method with a loop), the power balance and speed search, the
  per-segment values, the zero-duration filter, the in-place accumulation
  over an array, the elevation gain and the hours/minutes split.
- `TimeLabel` (`time_label.dfy`): the tick label of a duration — the
  breakdown by truncating division, the suppression rules keyed on the
  axis maximum, the sign and trimming; the routine itself is a method that
  reassigns its variables step by step as the source does.
- `Chart` (`chart.dfy`): hours to milliseconds, the chart's points and time
  domain, the inverse of the time scale, the leftmost bisection over
  segment start times (a binary-search method proved equal to a linear
  scan on increasing keys) and the mouse handler, a method of the class
  `CurrentPoint` whose three fields it updates or leaves unchanged.

Numbers are exact `real`s (durations in milliseconds are `int`); the
haversine distance is a parameter `dist` of type `Metric`, any total
function on two points that is never negative.

## Model

| member | source | states |
|---|---|---|
| Geo.PathLength | src/composables/useGeo.ts:14-30 | the summed distance between consecutive points is never negative and is zero for at most one point |
| Geo.PathLengthGlue | src/composables/useGeo.ts:14-30 | the length of two paths joined at a shared point is the sum of their lengths |
| Geo.CreateSegments | src/composables/useGeo.ts:32-55 | no groups for no points; otherwise the first group starts with the first point, each group's last point is the next group's first, concatenating the groups with later first points dropped gives the input back, every closed group exceeds the minimum distance and did not before its last point, and the last group has not yet exceeded it |
| Geo.FlattenPathLength | src/composables/useGeo.ts:93-96 | the lengths of chained groups add up to the length of the whole track |
| Geo.FlattenHead | src/composables/useGeo.ts:32-55 | the first group is a prefix of the reassembled track |
| Geo.FlattenTwo | src/composables/useGeo.ts:32-55 | the reassembled track holds the first group and all but the first point of the second |
| Geo.FourSamplesOneSegment | src/composables/useGeo.ts:32-124 | four samples 400 m apart with elevations 0, 10, 10, 0 and a minimum distance of 1000 m have one grouping, the whole track and then the last sample alone; the second group's segment has length zero and is dropped, leaving one segment of 1200 m |
| Geo.Power | src/composables/useGeo.ts:57-59 | at speed 0 the power is 0; with non-negative friction plus slope, weight, drag coefficient and speed, the power is non-negative |
| Geo.PowerAtRest | src/composables/useGeo.ts:57-59 | the power needed at speed 0 is 0 |
| Geo.FindSpeed | src/composables/useGeo.ts:60-63 | the search returns a step count between its start and its start plus its fuel |
| Geo.FindSpeedStops | src/composables/useGeo.ts:60-63 | every step the search passes falls short of the target power, and a step it stops at before its fuel runs out reaches it |
| Geo.FindSpeedNonPositiveTarget | src/composables/useGeo.ts:57-63 | a target power of at most zero gives speed 0 |
| Geo.FindSpeedWithinFuel | src/composables/useGeo.ts:60-63 | when the unbounded search stops within the fuel, the bounded search returns the same step |
| Geo.BoundedSearchAgrees | src/composables/useGeo.ts:60-63 | once capped at the maximum speed, the bounded search's speed equals the unbounded search's |
| Geo.LimitSpeed | src/composables/useGeo.ts:105 | the limited speed is the smaller of the speed and the maximum |
| Geo.Slope | src/composables/useGeo.ts:97 | the slope is 0 on a zero length, otherwise slope times length is 100 times the elevation difference |
| Geo.BalanceStep | src/composables/useGeo.ts:98-104 | with a positive power the search takes at least one step and at most the steps needed to pass the maximum speed |
| Geo.BalanceStepMeets | src/composables/useGeo.ts:98-105 | the balance speed reaches the configured power when under the cap, and the speed half a step lower does not |
| Geo.MakeSegment | src/composables/useGeo.ts:95-123 | a segment's length is its group's path length, its slope is the group's slope over that length, its speed is positive and at most the maximum and is either a half-step speed or the maximum itself, its duration is positive exactly when its length is, and its start and end are the group's first and last points at zero |
| Geo.DurationAtSpeed | src/composables/useGeo.ts:106 | the duration at a positive speed covers exactly the length |
| Geo.BelowBalanceFallsShort | src/composables/useGeo.ts:60-63 | every half-step speed below the limited speed found for a slope falls short of the configured power |
| Geo.SegmentPhysics | src/composables/useGeo.ts:96-106 | duration times speed times 1000 is the length; every half-step speed below the segment's speed falls short of the power, and an uncapped speed meets it, so it is the first half-step speed that does; a segment's speed is either a half-step speed or the maximum |
| Geo.Provisional | src/composables/useGeo.ts:95-123 | one segment per group, in order |
| Geo.Retained | src/composables/useGeo.ts:124 | a segment is kept exactly when it was there and its duration is positive |
| Geo.RetainedAppend | src/composables/useGeo.ts:124 | filtering a concatenation is the concatenation of the filtered parts, so the kept segments stay in their order |
| Geo.RetainedSnoc | src/composables/useGeo.ts:124 | appending one segment appends it to the kept segments exactly when its duration is positive |
| Geo.RetainedSingle | src/composables/useGeo.ts:124 | a single segment is kept exactly when its duration is positive |
| Geo.RetainedSumLength | src/composables/useGeo.ts:124 | dropping segments of length zero leaves the summed length unchanged |
| Geo.ProvisionalSumLength | src/composables/useGeo.ts:95-96 | the segments' summed length is the summed group lengths |
| Geo.Accumulate | src/composables/useGeo.ts:125-133 | in place, each segment starts where the previous one ended and ends one length and one duration after its start |
| Geo.ThreadedTotals | src/composables/useGeo.ts:125-133 | after threading from zero, the last end's distance and time are the summed lengths and durations |
| Geo.ThreadedStartsIncrease | src/composables/useGeo.ts:125-133 | after threading segments of positive duration, start times strictly increase |
| Geo.ThreadedProfile | src/composables/useGeo.ts:124-133 | threading kept segments gives a profile: positive lengths and durations, capped speeds, start at zero, continuity, ends after starts |
| Geo.KeptSegments | src/composables/useGeo.ts:95-124 | every kept segment has positive length and duration, a capped speed and starts at zero |
| Geo.KeptLength | src/composables/useGeo.ts:93-124 | the kept segments' lengths add up to the track's length |
| Geo.ProfileOfGroups | src/composables/useGeo.ts:95-133 | the pipeline after segmentation yields the threaded kept segments, a profile with strictly increasing start times |
| Geo.ProfileLength | src/composables/useGeo.ts:91-134 | the profile ends at the track's total distance, or the track has length zero when no segment is kept |
| Geo.BuildSegments | src/composables/useGeo.ts:91-134 | the segments are the threaded, kept segments of a segmentation of the points, forming a profile with increasing start times whose last end is the total distance |
| Geo.ProfileEndTime | src/composables/useGeo.ts:125-133 | a profile's last end time is its summed durations |
| Geo.Round | src/composables/useGeo.ts:86 | rounding stays within half a unit, halves going up |
| Geo.Trunc | src/composables/useGeo.ts:67 | truncation moves toward zero by less than one |
| Geo.ElevationGain | src/composables/useGeo.ts:81-89 | the positive elevation gain is never negative |
| Geo.ElevationGainGrows | src/composables/useGeo.ts:81-89 | the gain never decreases as the fold goes on |
| Geo.ElevationGainNearClimb | src/composables/useGeo.ts:81-89 | rounding at each step keeps the gain within half a metre per step of the exact climb |
| Geo.ToHoursAndMinutes | src/composables/useGeo.ts:65-70 | the hours are the whole hours of the total, and for a non-negative total both hours and minutes are non-negative with minutes at most 60 |
| Geo.ToHoursAndMinutesTotal | src/composables/useGeo.ts:65-70 | for a non-negative total, hours times 60 plus minutes is the rounded total, with minutes between 0 and 60 inclusive |
| Geo.ToHoursAndMinutesWhole | src/composables/useGeo.ts:65-70 | on a whole number of minutes the split is exact and minutes stay below 60 |
| Geo.ToHoursAndMinutesSixty | src/composables/useGeo.ts:65-70 | 119.6 minutes is split as 1 hour and 60 minutes |
| Geo.ToHoursAndMinutesRounded | src/composables/useGeo.ts:65-70 | hours times 60 plus minutes is the rounded total and minutes stay below 60 |
| Geo.RoundedAgreesBelowSixty | src/composables/useGeo.ts:65-70 | wherever the split as written gives minutes below 60, the corrected split gives the same result |
| Geo.TotalTimeIsProfileEnd | src/composables/useGeo.ts:136-138 | the corrected total time is the profile's end time rounded to the minute, with minutes below 60 |
| Geo.TotalTimeAsWritten | src/composables/useGeo.ts:136-138 | for a non-negative summed duration, hours times 60 plus minutes is the summed duration in minutes, rounded, with minutes between 0 and 60 inclusive |
| Geo.TotalTime | src/composables/useGeo.ts:136-138 | with the corrected split, hours times 60 plus minutes is the summed duration in minutes, rounded, and minutes stay below 60 |
| Geo.TotalTimeAsWrittenIsProfileEnd | src/composables/useGeo.ts:136-138 | the total time as written is the profile's end time rounded to the minute, its minutes may reach 60, and below 60 it equals the corrected total |
| Geo.SumDurationPositive | src/composables/useGeo.ts:136-138 | a profile's summed duration is positive |
| TimeLabel.NatToString | src/composables/useD3.ts:27-42 | a number prints as a non-empty string of digits, with no leading zero unless the number is 0 |
| TimeLabel.NatToStringRoundTrip | src/composables/useD3.ts:27-42 | reading the printed digits back gives the number |
| TimeLabel.TrimStart | src/composables/useD3.ts:46 | the result is a suffix that does not start with a space, and everything removed is a space |
| TimeLabel.TrimEnd | src/composables/useD3.ts:46 | the result is a prefix that does not end with a space, and everything removed is a space |
| TimeLabel.Trim | src/composables/useD3.ts:46 | the result is a slice of the text that neither starts nor ends with a space, with only spaces outside it |
| TimeLabel.TrimSlice | src/composables/useD3.ts:46 | dropping leading and then trailing spaces keeps a slice of the text with only spaces after it |
| TimeLabel.TrimEndPrefix | src/composables/useD3.ts:43-46 | trimming the end passes over a leading non-space character |
| TimeLabel.Decompose | src/composables/useD3.ts:15-26 | days, hours, minutes, seconds and milliseconds add back up to the duration, with minutes and seconds below 60, milliseconds below 1000, hours below 24 when days are split off, and no days otherwise |
| TimeLabel.Split | src/composables/useD3.ts:15-26 | the truncating divisions give the duration's breakdown |
| TimeLabel.DecomposeUnique | src/composables/useD3.ts:15-26 | any breakdown within those bounds that adds up to the duration is the one computed |
| TimeLabel.Parts | src/composables/useD3.ts:27-42 | at most five components are shown, and none exactly when days are not asked for or zero, hours and minutes are zero, seconds are zero or the axis reaches an hour, and milliseconds are zero or the axis reaches five seconds |
| TimeLabel.PartsShown | src/composables/useD3.ts:27-42 | days show exactly when asked for and nonzero, hours and minutes exactly when nonzero, seconds exactly on an axis below one hour when nonzero, milliseconds exactly on an axis below five seconds when nonzero |
| TimeLabel.PartsInOrder | src/composables/useD3.ts:27-42 | the shown components carry their own nonzero values, from the largest unit to the smallest, each once |
| TimeLabel.Render | src/composables/useD3.ts:27-42 | the text is empty exactly when no component is shown, and otherwise starts with a digit |
| TimeLabel.RenderOptional | src/composables/useD3.ts:27-42 | a component that is shown renders as its number and unit, otherwise as nothing |
| TimeLabel.RenderParts | src/composables/useD3.ts:27-42 | the label text is the days, hours, minutes, seconds and milliseconds pieces in that order, each present only when shown |
| TimeLabel.JoinParts | src/composables/useD3.ts:27-42 | building from the minutes outward gives the rendered components |
| TimeLabel.MilliToString | src/composables/useD3.ts:10-47 | the step-by-step routine returns the label of the duration |
| TimeLabel.Label | src/composables/useD3.ts:10-47 | a negative duration's label starts with '-', and any other label is empty or starts with a digit |
| TimeLabel.TrimKeepsFirst | src/composables/useD3.ts:46 | trimming a text that does not start with a space keeps its first character |
| TimeLabel.LabelOfZero | src/composables/useD3.ts:10-47 | a zero duration has an empty label |
| TimeLabel.LabelOfNegative | src/composables/useD3.ts:11-46 | a negative duration is labelled '-' followed by the label of its magnitude |
| TimeLabel.LabelTrimmed | src/composables/useD3.ts:46 | a label neither starts nor ends with a space |
| TimeLabel.LabelBelowOneSecond | src/composables/useD3.ts:33-36 | a positive duration below one second, on an axis below five seconds, reads as its milliseconds followed by "ms" |
| TimeLabel.LabelWholeHours | src/composables/useD3.ts:20-39 | a whole, nonzero number of hours without days reads as that number followed by "h" |
| TimeLabel.TrimmedNumberUnit | src/composables/useD3.ts:46 | trimming a number and unit drops only the unit's trailing space |
| Chart.ConvertHoursToMilli | src/composables/useD3.ts:6-8 | dividing the result by 3600000 gives the hours back, and the sign is kept |
| Chart.Points | src/composables/useD3.ts:64-67 | no points for no segments; otherwise one more point than segments, the first segment's start then every segment's end |
| Chart.PointsOfProfile | src/composables/useD3.ts:64-67 | on a profile each point has its segment's start time and distance, and both strictly increase along the points |
| Chart.XTimeExtent | src/composables/useD3.ts:75-77 | the domain starts at 0 and ends at 0 for no points, otherwise at the last point's time in milliseconds |
| Chart.XTimeExtentCoversProfile | src/composables/useD3.ts:75-77 | on a profile the domain ends at the last segment's end and holds every segment's start key |
| Chart.TimeScale | src/composables/useD3.ts:78-80 | the domain's ends map to the left margin and to the width less the right margin |
| Chart.InvertTime | src/composables/useD3.ts:167 | a position between the margins inverts to a time inside the domain |
| Chart.ScaleInvertRoundTrip | src/composables/useD3.ts:167 | scaling the inverted time gives the position back |
| Chart.MouseTime | src/composables/useD3.ts:167-169 | on a non-negative time domain, the cursor's time is a non-negative whole number of milliseconds, at most the inverted time and less than one millisecond below it |
| Chart.FirstAtLeast | src/composables/useD3.ts:155 | the scan returns the first index in the range whose key is at least the query, every key before it being below, or the range's end |
| Chart.BisectLeft | src/composables/useD3.ts:155 | the search stays in its range, stops where the key to the left is below the query and the key at it is not, and on increasing start times returns the scan's index |
| Chart.BoundaryIsFirst | src/composables/useD3.ts:155 | on increasing keys the only such boundary is the scan's index |
| Chart.Selection | src/composables/useD3.ts:169-172 | the handler shows nothing exactly when there is at most one segment or the cursor is not past the first start; otherwise the segment shown starts before the cursor and is never the last one |
| Chart.SelectionBounds | src/composables/useD3.ts:169-172 | on increasing start times the selection fails exactly when there is at most one segment or the cursor is not past the first start; otherwise the segment shown starts before the cursor, is never the last one, and the next start is not before the cursor unless it is the last |
| Chart.LastSegmentNeverShown | src/composables/useD3.ts:169-172 | on a profile, a cursor inside the last segment shows the one before it |
| Chart.LastSegmentExample | src/composables/useD3.ts:169-172 | two one-hour segments with the cursor at ninety minutes show the first |
| Chart.HoveredSegment | src/composables/useD3.ts:169-172 | searching the whole array, nothing is shown exactly when there is no segment or the cursor is not past the first start; otherwise the segment shown starts before the cursor and is the last one or the next one does not |
| Chart.HoveredSegmentContains | src/composables/useD3.ts:169-172 | searching the whole array, a cursor time after the start and up to the end of a profile lies in the time span of the segment shown |
| Chart.CurrentPoint.constructor | src/composables/useD3.ts:50-54 | the current point starts with speed, latitude and longitude 0 |
| Chart.CurrentPoint.OnMouseMove | src/composables/useD3.ts:165-174 | outside the margins nothing happens; inside, a bisection landing on 0 fails and leaves the fields unchanged; otherwise the fields take the speed and start coordinates of a segment that starts before the cursor and is not the last, the one the selection picks on increasing start times |

## Left out

- The haversine formula (a foreign library call on floats) is not modelled: the distance is a parameter, any function on two points that is never negative.
- IEEE floating point: all arithmetic is on exact reals; `Math.pow(V, 3)` is `V * V * V`, `Math.round`, `Math.floor`, `Math.trunc` and the remainder `%` (sign of the dividend) are written out.
- Geo.FindSpeed: the source recurses without bound; the model takes at most `floor(2 * maxSpeed) + 1` steps, enough to pass the maximum speed. `Geo.BoundedSearchAgrees` shows that, after the cap, the speed is the same whenever the unbounded search terminates. The source's search can fail to terminate: with a drag coefficient of 0 on a descent steeper than the friction, the power never grows with the speed, so the source recurses until the call stack overflows and the computed profile throws; the model stops when its fuel runs out and returns the maximum speed.
- Geo.MakeSegment: requires a positive power and a positive maximum speed (`Geo.ValidConfig`); the other configurations are not modelled. With a power of at most 0 the speed search returns 0, and with a maximum speed of 0 every speed is capped at 0. In both cases the source divides each length by a zero speed, which in JavaScript gives an `Infinity` duration (kept by the filter) or a `NaN` one (dropped). With a negative maximum speed every speed is capped at that maximum, so every duration is negative or `-0`, the filter drops them all, and the profile is empty.
- The Vue reactivity (`computed`, `reactive`, `watchEffect`, `useElementSize`), the SVG and DOM construction, the event wiring, the event position lookup and `preventDefault`, and the rule line's `transform` are not modelled. The mouse handler takes the cursor's x position, the chart's width and the segments as parameters.
- The d3 internals are not modelled. This covers the distance and elevation scales and `xDistExtent` (which reads past the end of an empty point list), the colour scales, the area path, the axes and the tick generation. The time scale and its inverse are the plain linear map on the domain `[0, end]` and the range between the margins.
- The d3 bisector's check for a query that is not comparable to itself (NaN) is not modelled, since queries here are always numbers.
- Chart.MouseTime: a `Date` truncates the inverted time to whole milliseconds, and that is modelled; the clipping of dates beyond ±8.64e15 ms is not.
- TimeLabel.MilliToString: the source accepts any value; the model takes whole milliseconds as `int`. When days are not asked for, the source leaves `d` undefined, and the model uses 0, which prints the same.
- TimeLabel.Trim: removes only the space character. The label's text contains no other white space.
- The GPX parser (XML, file and drag-and-drop handling), the map and its markers, and the type declarations are not part of this model.
- `Geo.TotalTime` uses the corrected hours/minutes split (see Findings). The total time as written is `Geo.TotalTimeAsWritten`, whose minutes can reach 60.

## Findings

| source | as written | input that shows it | evidently intended | confidence | as-written member | corrected member |
|---|---|---|---|---|---|---|
| src/composables/useGeo.ts:65-70 | hours are `floor(t / 60)` and minutes are `round(t % 60)`, rounded after the split | t = 119.6 minutes gives 1 h 60 min | round the total first, then split, giving 2 h 0 min with minutes always below 60 | not executed | Geo.ToHoursAndMinutesSixty | Geo.ToHoursAndMinutesRounded |
| src/composables/useD3.ts:169-172 | the bisection's upper bound is `length - 1` and the handler reads `segments[i - 1]` | two one-hour segments with the cursor at 90 minutes show the first segment; with a single segment, every cursor move reads `segments[-1]` and fails | search the whole array, so that the segment whose time span holds the cursor is shown, the last one included | not executed | Chart.LastSegmentNeverShown | Chart.HoveredSegmentContains |
