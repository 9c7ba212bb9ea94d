# ReWatch in Dafny

ReWatch collects accelerometer readings from a Wear OS watch while a patient walks (the gait
stage) and while the patient reacts to a short-term memory test (the reaction stage). A
Flask web app stores the readings and runs two analysis tasks on them. It also runs the
memory test itself and draws a patient's history charts. This project models the core of
that system in Dafny and proves what the code promises about it:

- **The gait task** (`PeakIdentification`). It sorts one stage recording's points by
  timestamp and applies a 20-sample trailing DC block and the causal 7-tap low-pass
  `[1,2,3,4,3,2,1]/16`. It finds the sign changes of the NaN-free smoothed series, keeps at most
  one trough or peak per segment, and summarises the gaps between consecutive peaks and between
  consecutive troughs.
- **The reaction task** (`MemoryAnalysis`). It computes the largest norm, the time until the
  norm first exceeds 0.2, and the mean norm from that moment on. It refuses a recording whose
  largest norm is below 0.2.
- **Stage-data records** (`Models`). This covers the JSON decoder `from_json` (with its loop
  over the data), the encoder `to_json`, the stage enum and `User.has_role`.
- **Context injection for routes** (`InjectionRouting`). The `<name_id>` placeholder
  extractor finds placeholders in a route. The wrapper then replaces each hinted `name_id`
  keyword argument by the object it names, or aborts with 404.
- **The memory test** (`MemoryTest`). This covers the non-overlapping shape placement, the
  grading of an answer, and the score and round update. It also covers the average reaction
  time. A `MemorySession` class holds the test's session entries.
- **The role guard** (`Decorators`). `roles_required`'s own check decides between a 401, a 403
  and a call. In the configured app the 401 is never reached: `login_manager.login_view` is
  set, so `@login_required` redirects an unauthenticated user before that check runs.
- **Chart data** (`ChartData`). `get_patient_assessment_data` produces labels, scores and
  averages, and splits reaction points into correct and incorrect.
- **The watch stub** (`WatchStub`). This covers the reading and DTO builders, the timestamp
  schedule and sample counts of the two signal generators, and the reaction-time clamp.
- **The watch** (`TimingCalibration`, `AccelerometerManagement`, `AccelerometerGathering`).
  This covers the one-way delay estimate (half the round-trip delay) on Kotlin `Long`s and the
  two recording controllers.
  Each controller has a recording flag and a buffer.

Shared modules:

- `Wrappers`: Option and Result.
- `Json`: dict payloads as values.
- `Recording`: a stored sample, the sort by timestamp and the tasks' errors.
- `Decimal`: the decimal numeral `str()` gives an int.
- `Stats`: sum, mean, population variance and `int()` of a float.
- `WatchData`: the watch's reading and sensor event.

Randomness, clocks and sensors are inputs:

- a random draw is a function indexed by call number (`int -> int` for `random.randint`, whose
  value outside the range [0, hi] is read as 0, and `nat -> (real, real, real)` or
  `nat -> nat` elsewhere);
- the Gaussian reaction time is a parameter;
- the 50% "same or new set" coin is a boolean;
- `random.sample` draws from the shrinking pool through a `nat -> nat` index oracle;
- the wall clock is a parameter.

The database lookups of the tasks and of the injection wrapper are also inputs: an
`Option` of the row's points, and a map from (type, id) to record.

Where the code and its comments disagree, the model follows the code:

- The trial fade comment speaks of 0.3 seconds. The formula `1 - (i - rt_sample) / 50 * 0.3`
  reaches zero after 167 samples (3.34 s). `TrialValuesPhases` states the code's figure.
- The reaction records are read under the key `"diffculty"`, as spelled in
  `web/app/utilities/utils.py:30`.
- The gait crossings are computed on the NaN-dropped series and used as positions into the
  full smoothed column. The model keeps this offset (`CrossingOffset`). A consequence is
  `AnalyzeGaitFails`: a second crossing at position 25 or earlier leaves a first segment
  made only of filter gaps, and pandas then fails on it.
- A largest norm of exactly 0.2 passes the reaction task's `< 0.2` guard, although no sample is
  strictly above it. The row is then stored with an undefined time-to-move and average.
  `ReactionCrossingDefined` states this.

## Model

| member | source | states |
|---|---|---|
| Recording.ValueErrorMessage | web/app/celery_tasks/memory_analysis.py:22-46 | Only a missing row and a too-weak signal raise ValueError with a text. The missing row's text is "AssessmentStageData with ID <id> not found." with the id in decimal; the weak signal's is "Maximum norm value is below threshold; cannot perform analysis." |
| Decimal.NatToString | web/app/celery_tasks/peak_identification.py:27 | The id's numeral is made of decimal digits that denote it, with no leading zero |
| Decimal.IntToString | web/app/celery_tasks/peak_identification.py:27 | str(i) starts with '-' iff i is negative, and the digits after the sign denote the magnitude of i |
| Recording.SortByTimestamp | web/app/celery_tasks/memory_analysis.py:34 | The sorted table is ordered by timestamp and is a permutation of the points |
| Recording.SortKeepsNorms | web/app/celery_tasks/peak_identification.py:37-44 | Sorting keeps every sample's norm the Euclidean norm of its axes |
| Stats.VarianceNonNegative | web/app/celery_tasks/peak_identification.py:79 | The population variance behind np.std is never negative |
| Stats.VarianceConstant | web/app/celery_tasks/peak_identification.py:78-79 | A constant series has its value as mean and zero variance |
| MemoryAnalysis.MaxNorm | web/app/celery_tasks/memory_analysis.py:43 | The maximum is attained by some sample and bounds every norm |
| MemoryAnalysis.MinTimestamp | web/app/celery_tasks/memory_analysis.py:53 | The earliest timestamp is attained and bounds every timestamp |
| MemoryAnalysis.FirstAbove | web/app/celery_tasks/memory_analysis.py:49-50 | Undefined iff no norm is strictly above the threshold; otherwise the earliest timestamp among the samples above it |
| MemoryAnalysis.ReactionErrors | web/app/celery_tasks/memory_analysis.py:21-46 | Fails with NotFound iff there is no row, and with EmptyRecording iff there are no points. Fails with InsufficientSignal iff every norm is below 0.2, and succeeds iff some norm reaches 0.2 |
| MemoryAnalysis.AnalysisIgnoresSort | web/app/celery_tasks/memory_analysis.py:34-57 | The analysis of the sorted table equals that of the points in stored order |
| MemoryAnalysis.ReactionOrderIndependent | web/app/celery_tasks/memory_analysis.py:34 | Two recordings with the same multiset of samples give the same outcome |
| MemoryAnalysis.AverageBounds | web/app/celery_tasks/memory_analysis.py:56-57 | The mean norm from a crossing on is defined and lies in (0, largest norm] |
| MemoryAnalysis.TableResult | web/app/celery_tasks/memory_analysis.py:43-65 | max_accl is the largest norm, and time-to-move and average are defined together. Time-to-move is the first crossing minus the earliest timestamp, and is never negative. The average is the mean norm of all samples stamped at or after the crossing, and lies in (0, max_accl] |
| MemoryAnalysis.ReactionResult | web/app/celery_tasks/memory_analysis.py:43-64 | On success the row is the analysis of the stored points, and its max_accl is at least 0.2 |
| MemoryAnalysis.ReactionCrossingDefined | web/app/celery_tasks/memory_analysis.py:45-50 | Time-to-move is defined iff max_accl > 0.2; at exactly 0.2 both time-to-move and average are undefined |
| PeakIdentification.DcBlockShift | web/app/celery_tasks/peak_identification.py:47 | The 20-sample DC block ignores a constant offset added to every norm |
| PeakIdentification.WindowShift | web/app/celery_tasks/peak_identification.py:47 | Each output of the DC block is unchanged by a constant offset, because its window mean moves by the same amount |
| PeakIdentification.DcBlockConstant | web/app/celery_tasks/peak_identification.py:40-47 | A constant recording is blocked to exactly 0 from position 19 on |
| PeakIdentification.LowPassAvailable | web/app/celery_tasks/peak_identification.py:50-52 | Output i is defined iff the inputs at positions i-6..i that exist are defined |
| PeakIdentification.LowPassConstant | web/app/celery_tasks/peak_identification.py:50-52 | A full window of seven equal inputs c is passed as c (unit gain) |
| PeakIdentification.SmoothedGaps | web/app/celery_tasks/peak_identification.py:47-52 | The smoothed column is NaN exactly at its first 25 positions |
| PeakIdentification.DropGapsSuffix | web/app/celery_tasks/peak_identification.py:55 | With the gaps at the first g positions, dropna leaves the tail: position p of the result is position p + g of the column |
| PeakIdentification.ZeroCrossings | web/app/celery_tasks/peak_identification.py:55 | The crossings are ascending, and each one is a position where the sign in {-1, 0, 1} changes. Every such position is listed |
| PeakIdentification.ArgMinIsFirst | web/app/celery_tasks/peak_identification.py:64 | idxmin over a segment is undefined iff the segment is all NaN; otherwise it is the first position of the minimum of the defined values |
| PeakIdentification.ArgMaxIsFirst | web/app/celery_tasks/peak_identification.py:65 | idxmax over a segment is undefined iff the segment is all NaN; otherwise it is the first position of the maximum of the defined values |
| PeakIdentification.ClassifySegmentFails | web/app/celery_tasks/peak_identification.py:61-68 | Classifying a segment fails iff all its positions are NaN |
| PeakIdentification.ClassifySegmentRule | web/app/celery_tasks/peak_identification.py:64-73 | A trough is the first minimum, below -0.2, with every value below its magnitude and some value above it, so that its magnitude exceeds the maximum's. A peak is the first maximum, above 0.2 in magnitude and not smaller in magnitude than the minimum. Nothing is recorded iff every value is within 0.2 of 0 |
| PeakIdentification.FindPeaksAndTroughs | web/app/celery_tasks/peak_identification.py:58-73 | The segment loop yields the fold of the per-segment classification over all consecutive pairs of crossings |
| PeakIdentification.EventsFailureSticks | web/app/celery_tasks/peak_identification.py:58-68 | Once a segment fails, the loop's outcome is that failure |
| PeakIdentification.EventsStep | web/app/celery_tasks/peak_identification.py:70-73 | Each segment appends its position to the peaks or to the troughs list, or to neither |
| PeakIdentification.EventsInside | web/app/celery_tasks/peak_identification.py:58-73 | Every recorded peak or trough lies inside one of the segments seen so far |
| PeakIdentification.EventsOrdered | web/app/celery_tasks/peak_identification.py:58-73 | The peak list and the trough list are each strictly increasing and are disjoint. There are at most as many entries as segments |
| PeakIdentification.ExtendOrdered | web/app/celery_tasks/peak_identification.py:70-73 | Appending a position above every earlier one keeps both lists increasing and disjoint, and adds at most one entry |
| PeakIdentification.EventsFailure | web/app/celery_tasks/peak_identification.py:58-68 | The loop fails iff some segment is all NaN, and then with SegmentWithoutValues |
| PeakIdentification.QuietEvents | web/app/celery_tasks/peak_identification.py:70-73 | When no smoothed value exceeds 0.2 in magnitude, both lists stay empty |
| PeakIdentification.IntervalsSum | web/app/celery_tasks/peak_identification.py:77 | The gaps in seconds add up to the span from the first to the last timestamp |
| PeakIdentification.IntervalStatsMean | web/app/celery_tasks/peak_identification.py:76-84 | Fewer than two positions give (0, 0). Otherwise the average gap is the span divided by the number of gaps, and the variance is never negative |
| PeakIdentification.EvenIntervals | web/app/celery_tasks/peak_identification.py:76-79 | Timestamps spaced by g ms give an average of g / 1000 s and variance 0 |
| PeakIdentification.IntervalsNonNegative | web/app/celery_tasks/peak_identification.py:76-84 | Non-decreasing timestamps give a non-negative average gap |
| PeakIdentification.CrossingsOfColumn | web/app/celery_tasks/peak_identification.py:55-60 | The crossings of the dropped series are ascending and lie within the full column |
| PeakIdentification.CrossingOffset | web/app/celery_tasks/peak_identification.py:55-61 | The dropped series is the column minus its first 25 positions, and its position p is column position p + 25 |
| PeakIdentification.GapSegment | web/app/celery_tasks/peak_identification.py:61 | A segment of the smoothed column is all NaN iff it ends by position 25 |
| PeakIdentification.AnalyzeGaitFails | web/app/celery_tasks/peak_identification.py:55-68 | Analysing a table fails iff its second crossing is at position 25 or less, and then with SegmentWithoutValues |
| PeakIdentification.LeadingGapsFail | web/app/celery_tasks/peak_identification.py:58-68 | When exactly the segments ending by position 25 are all NaN, the loop fails iff the first segment ends there, and then with SegmentWithoutValues |
| PeakIdentification.IdentifyPeaks | web/app/celery_tasks/peak_identification.py:24-99 | The task body, with the segment loop as a loop, produces the task's outcome |
| PeakIdentification.GaitErrors | web/app/celery_tasks/peak_identification.py:24-37 | No row gives NotFound, and no points gives EmptyRecording. Otherwise the task fails iff the first segment is all NaN |
| PeakIdentification.GaitResult | web/app/celery_tasks/peak_identification.py:58-99 | A stored row's peak and trough lists are strictly increasing, disjoint and inside segments. Its statistics are those of the timestamp gaps at those positions of the sorted table, and are non-negative |
| PeakIdentification.SortedTimestampsAt | web/app/celery_tasks/peak_identification.py:76-82 | Increasing positions of a table sorted by time give a non-negative average gap |
| PeakIdentification.SummariseNothing | web/app/celery_tasks/peak_identification.py:78-84 | No peaks and no troughs give four zero statistics |
| PeakIdentification.QuietTable | web/app/celery_tasks/peak_identification.py:70-84 | A quiet smoothed column that is analysed gives no positions and four zeros |
| PeakIdentification.QuietRecording | web/app/celery_tasks/peak_identification.py:70-84 | A stored row for a recording whose smoothed values are within 0.2 of 0 holds no positions and four zeros |
| PeakIdentification.FlatColumnNoCrossings | web/app/celery_tasks/peak_identification.py:55 | A column whose defined values are all 0 has no crossings |
| PeakIdentification.DropGapsValues | web/app/celery_tasks/peak_identification.py:55 | Every value of the dropped series is a defined value of the column |
| PeakIdentification.ConstantRecording | web/app/celery_tasks/peak_identification.py:44-99 | A recording whose norms are all equal is stored with no peaks, no troughs and four zeros |
| Models.ToLower | web/app/models.py:92 | Lower-cases exactly the ASCII capitals and keeps the length |
| Models.StageOfValue | web/app/models.py:69-71 | The enum lookup accepts exactly "gait" and "reaction" and inverts the value |
| Models.Lookup | web/app/models.py:92-104 | A key lookup succeeds iff the value is a dict holding the key, and gives its entry |
| Models.FromJson | web/app/models.py:81-107 | The decoding loop yields the decoder's result, including the first datum's failure, among them a ts fromtimestamp cannot convert |
| Models.DecodeFailureSticks | web/app/models.py:98-105 | A datum that fails to decode decides the outcome of the whole loop |
| Models.DecodePointsEach | web/app/models.py:98-105 | Each decoded point is the decoding of the datum at the same position |
| Models.DecodePointsAll | web/app/models.py:98-105 | Data that all decode give one point per datum, in order |
| Models.DecodeResult | web/app/models.py:92-105 | A decoded record keeps assessmentID, and carries the stage whose value is the lower-cased stage string. It has one point per datum, in order, with ts in ms, within the years 1 to 9999, and x, y, z unchanged. Any other lower-cased stage is refused |
| Models.DecodeOutOfRange | web/app/models.py:98-99 | A numeric ts outside the years 1 to 9999 makes the datum fail with that ts, and with it every loop that reaches the datum |
| Models.FarFutureRefused | web/app/models.py:99 | A ts of 10**17 ms, after the year 9999, is refused |
| Stats.Trunc | web/app/models.py:115 | int() of a float truncates toward zero; a non-negative value gives a non-negative int and a negative one a non-positive int |
| Models.ToJson | web/app/models.py:109-121 | Exactly the keys assessmentID, stage and data; the id is unchanged, the stage is its lower-case value, and there is one datum per point |
| Models.ToLowerLowercase | web/app/models.py:70-71 | The enum values are their own lower-case form |
| Models.EncodeDecode | web/app/models.py:92-121 | from_json(to_json(d)) gives d back when every timestamp is a whole number of ms within the datetime range, as a stored datetime's is |
| Models.PointRoundTrip | web/app/models.py:98-119 | One datum survives to_json then from_json when its timestamp is a whole number of ms within the datetime range |
| Models.DecodeEncode | web/app/models.py:92-121 | to_json(from_json(j)) restores assessmentID, the lower-cased stage, and each datum's integer ts and x, y, z |
| Models.AnyNamed | web/app/models.py:29 | True iff some role in the list carries the name |
| Models.HasRole | web/app/models.py:28-29 | has_role(r) iff some role of the user is named r |
| InjectionRouting.LetterRun | web/app/utilities/injection_routing.py:11 | The longest prefix of lower-case letters |
| InjectionRouting.MatchAtStart | web/app/utilities/injection_routing.py:11 | A match at the start spans `<`, at least one letter and `_id>` |
| InjectionRouting.FindAll | web/app/utilities/injection_routing.py:23 | Every extracted name is one or more lower-case letters |
| InjectionRouting.FindAllSkipsText | web/app/utilities/injection_routing.py:23 | A `<`-free prefix of a route contributes no names |
| InjectionRouting.FindAllPlaceholder | web/app/utilities/injection_routing.py:11-23 | A `<name_id>` placeholder at the start contributes its name, followed by the names of the rest |
| InjectionRouting.FindAllRender | web/app/utilities/injection_routing.py:23 | A route made of `<`-free text and placeholders yields exactly their names, left to right |
| InjectionRouting.UserEndpoint | web/app/utilities/injection_routing.py:23 | "/test/<user_id>" yields ["user"] |
| InjectionRouting.FindAllNoPlaceholder | web/app/utilities/injection_routing.py:11-23 | Text without `<` yields no names |
| InjectionRouting.FindAllRejectsName | web/app/utilities/injection_routing.py:11 | A placeholder whose name holds a digit, `_` or a capital is skipped |
| InjectionRouting.GetInjectionType | web/app/utilities/injection_routing.py:36 | Defined iff the name has a type hint, and then that hint |
| InjectionRouting.StripLeft | web/app/utilities/injection_routing.py:92 | int() skips the leading whitespace: what remains is a suffix that starts with no whitespace, and everything dropped is whitespace |
| InjectionRouting.StripRight | web/app/utilities/injection_routing.py:92 | int() skips the trailing whitespace in the same way |
| InjectionRouting.DropUnderscores | web/app/utilities/injection_routing.py:92 | The digits of a numeral stay in order; text made only of digits is kept whole |
| InjectionRouting.ReadNumeralAccepts | web/app/utilities/injection_routing.py:92 | The digit reader accepts exactly digits with single underscores between them |
| InjectionRouting.ReadNumeralValue | web/app/utilities/injection_routing.py:92 | An accepted numeral reads as the number its digits denote |
| InjectionRouting.ReadSignedSpec | web/app/utilities/injection_routing.py:92 | An optional '-' or '+' before a numeral is accepted, and '-' negates its value |
| InjectionRouting.ParseIntStrip | web/app/utilities/injection_routing.py:92 | Skipping whitespace one character at a time from either end reads the same as stripping both ends first |
| InjectionRouting.ParseIntSpec | web/app/utilities/injection_routing.py:92 | int(text) succeeds iff the stripped text is an optionally signed numeral of at most 4300 digits (CPython's default conversion limit), and gives its value, negated after '-' |
| InjectionRouting.ParseIntDigits | web/app/utilities/injection_routing.py:92 | Plain digits, with or without a sign, give the number they denote when there are at most 4300 of them, and raise ValueError when there are more |
| InjectionRouting.ParseIntTooLong | web/app/utilities/injection_routing.py:92 | A `_id` argument of 4301 digits makes int() raise ValueError |
| InjectionRouting.ParseIntRoundTrip | web/app/utilities/injection_routing.py:92 | int(str(i)) == i for every int whose str() has at most 4300 digits, the ints str() converts without raising |
| InjectionRouting.ParseIntExamples | web/app/utilities/injection_routing.py:92 | " 7\n" gives 7, "1_0" gives 10 and "-0_3" gives -3; "1__0", "1_", "" and "7a" raise |
| InjectionRouting.Merge | web/app/utilities/injection_routing.py:102 | The merged keys are both key sets; a remaining keyword argument wins over an injected object of the same name |
| InjectionRouting.Wrapper | web/app/utilities/injection_routing.py:76-103 | The wrapper loop with its skip and early aborts yields the specified outcome |
| InjectionRouting.InjectAllFailureSticks | web/app/utilities/injection_routing.py:80-97 | An abort ends the loop with that abort |
| InjectionRouting.InjectAllSuccess | web/app/utilities/injection_routing.py:80-99 | After a successful loop, the hinted names' `_id` keys are gone and the hinted names are injected. No hinted name is repeated, and each injected value is the stored record for the parsed id |
| InjectionRouting.InjectAllComplete | web/app/utilities/injection_routing.py:80-99 | When every hinted name resolves and none repeats, the loop succeeds |
| InjectionRouting.WrapperCallsIff | web/app/utilities/injection_routing.py:76-103 | The view is called iff every hinted name's `_id` argument is present, parses and names a stored record, and no hinted name repeats |
| InjectionRouting.WrapperCallArguments | web/app/utilities/injection_routing.py:90-103 | In a call, each hinted `name_id` is removed, and `name` is the looked-up record unless a keyword argument of that name exists. Every other keyword argument passes through, and nothing else is added |
| InjectionRouting.InjectAllAbortStep | web/app/utilities/injection_routing.py:80-97 | An abort comes from one step of the loop after a successful prefix |
| InjectionRouting.WrapperNotFound | web/app/utilities/injection_routing.py:96-97 | A 404 means that some hinted name's id parsed but named no stored record |
| InjectionRouting.NoHintsPassThrough | web/app/utilities/injection_routing.py:83-87 | With no hinted placeholder, the view gets the keyword arguments unchanged |
| InjectionRouting.InjectAllUnhinted | web/app/utilities/injection_routing.py:83-87 | Unhinted names leave the injection state unchanged |
| InjectionRouting.UserInjected | web/app/utilities/injection_routing.py:90-103 | "/test/<user_id>" with user_id "7" calls the view with the stored User 7 as user |
| InjectionRouting.SevenParses | web/app/utilities/injection_routing.py:92 | "7" parses to 7 |
| InjectionRouting.UserNotFound | web/app/utilities/injection_routing.py:96-97 | "/test/<user_id>" with no User 7 aborts with 404 |
| InjectionRouting.RepeatedPlaceholder | web/app/utilities/injection_routing.py:92-99 | A repeated placeholder fails on its second occurrence, because its `_id` argument was already deleted |
| MemoryTest.ShapeSize | web/app/memory_test.py:24-32 | A shape's size from the table, (50, 50) for an unknown shape, has sides between 50 and 60 |
| MemoryTest.RandInt | web/app/memory_test.py:47-48 | randint(0, hi) lies in [0, hi] |
| MemoryTest.OverlapsMeansCommonInterior | web/app/memory_test.py:52-58 | Two rectangles overlap iff their interiors intersect, so sharing an edge is no overlap; overlap is symmetric |
| MemoryTest.Accepted | web/app/memory_test.py:46-67 | The accepted attempt lies within the attempts still to make |
| MemoryTest.AcceptedIsFirstFree | web/app/memory_test.py:46-67 | The accepted candidate is the first that overlaps no earlier rectangle, or the last one after only overlapping attempts |
| MemoryTest.Positions | web/app/memory_test.py:69 | One {top, left} per rectangle, in order |
| MemoryTest.PlaceShape | web/app/memory_test.py:44-67 | One shape's attempts loop with its break gives the specified step: the unbound-candidate error with no attempts, the empty-range error for a shape larger than the frame, else the accepted candidate appended after two draws per attempt |
| MemoryTest.AcceptedSkips | web/app/memory_test.py:51-61 | An overlapping attempt that is not the last passes the choice on to the next attempt; the last one is kept |
| MemoryTest.GeneratePositions | web/app/memory_test.py:37-69 | The nested placement loops yield the specified positions or error |
| MemoryTest.PlaceShapesFailureSticks | web/app/memory_test.py:43-67 | A failing shape ends the placement with its error |
| MemoryTest.PlaceShapesLength | web/app/memory_test.py:43-67 | Placing k shapes gives k rectangles |
| MemoryTest.PlaceShapesPrefix | web/app/memory_test.py:43-67 | Later shapes never move earlier rectangles |
| MemoryTest.PlaceOneOk | web/app/memory_test.py:44-67 | A shape that was placed had a positive attempt count and fitted the frame, and its accepted candidate was appended |
| MemoryTest.CandidateChosen | web/app/memory_test.py:46-67 | The accepted candidate lies in the frame, and is free of the placed rectangles unless every attempt overlapped |
| MemoryTest.ShapePlaced | web/app/memory_test.py:43-67 | Each rectangle lies in the frame, and is free of the earlier rectangles unless every attempt overlapped |
| MemoryTest.CandidateInFrame | web/app/memory_test.py:47-49 | A candidate's top is in [0, frame - height] and its left in [0, frame - width] |
| MemoryTest.GeneratePositionsBounds | web/app/memory_test.py:43-69 | One position per shape, in shape order, each within the frame for that shape's size |
| MemoryTest.PlaceShapesErrors | web/app/memory_test.py:47-67 | Placement fails iff some shape does not fit the frame or there are no attempts; with no attempts it fails with the unbound candidate |
| MemoryTest.ViewPlacementSucceeds | web/app/memory_test.py:143 | A 500-pixel frame with 100 attempts always places every shape |
| MemoryTest.SetOf | web/app/memory_test.py:184 | set() of a list holds exactly its elements |
| MemoryTest.ZipMap | web/app/memory_test.py:187-188 | dict(zip(...)) has the shapes of the zipped prefix as keys |
| MemoryTest.ZipMapLastWins | web/app/memory_test.py:187-188 | A duplicate shape maps to its last colour |
| MemoryTest.EasyGrading | web/app/memory_test.py:183-184 | In easy mode an answer is correct iff the two shape sets are equal |
| MemoryTest.SameSetIsCorrect | web/app/memory_test.py:183-189 | Showing the memorised set again is graded correct in both modes |
| MemoryTest.HardGradingSeesColour | web/app/memory_test.py:185-189 | In hard mode, a changed colour of a unique shape makes the sets different |
| MemoryTest.HardGradingLastColourWins | web/app/memory_test.py:187-189 | In hard mode, only a duplicate shape's last colour is compared |
| MemoryTest.Scores | web/app/memory_test.py:190-191 | A point iff the answer is "Same" for a correct set or "Different" for an incorrect one |
| MemoryTest.UnknownChoiceNeverScores | web/app/memory_test.py:190-191 | Another or a missing choice never scores |
| MemoryTest.AverageReaction | web/app/memory_test.py:236 | sum / max(len, 1): 0 without times, the mean otherwise |
| MemoryTest.AverageReactionBounds | web/app/memory_test.py:236 | The average lies between the smallest and the largest bound of the times |
| MemoryTest.AverageReactionNonNegative | web/app/memory_test.py:236 | Non-negative times give a non-negative average |
| MemoryTest.Colours | web/app/memory_test.py:133-140 | One colour per shape |
| MemoryTest.ColoursChosen | web/app/memory_test.py:133-140 | Easy mode gives each shape its default colour, so equal shapes get equal colours. Hard mode picks a colour from the list |
| MemoryTest.AssignColours | web/app/memory_test.py:133-140 | The colour loop yields the colour list of the sampled shapes |
| MemoryTest.SampleFrom | web/app/memory_test.py:131 | Drawing k elements without replacement gives k elements |
| MemoryTest.RemoveDistinct | web/app/memory_test.py:131 | Taking a drawn element out of a list with no repeats leaves a list with no repeats that lacks it |
| MemoryTest.SampleFromDistinct | web/app/memory_test.py:131 | A sample drawn from a list with no repeats has no repeats and only elements of the list |
| MemoryTest.RandomSampleSpec | web/app/memory_test.py:131 | random.sample(SHAPES, k) succeeds iff 0 <= k <= 7, and then gives k distinct shapes of SHAPES |
| MemoryTest.MemorySession.constructor | web/app/memory_test.py:121-127 | A session with the settings (rounds, shapes per set, difficulty), no round counter, and none of the four shape and colour entries |
| MemoryTest.MemorySession.FirstMissing | web/app/memory_test.py:178-181 | No entry is missing iff all four shape and colour entries are present |
| MemoryTest.MemorySession.Start | web/app/memory_test.py:92-95 | Round and score are 0 and there are no reaction times; nothing else changes |
| MemoryTest.MemorySession.Memorize | web/app/memory_test.py:121-155 | After the last round, a redirect and no change. A num_shapes outside 0..7 fails with random.sample's ValueError and changes nothing. Otherwise the sample, its colours and its placement are stored as both the previous and the current set, and the round shown is round + 1 |
| MemoryTest.MemorySession.MemorizeSample | web/app/memory_test.py:133-155 | The sample, its colours and its placement are stored as both sets, and the page shows round + 1; round, score and times are kept |
| MemoryTest.MemorySession.ShowResponse | web/app/memory_test.py:164-228 | After the last round, a redirect and no change. A session with no memorised shapes or colours fails with KeyError for the first missing entry and changes nothing. So does a new sample with num_shapes outside 0..7, with ValueError. Otherwise the current set is the memorised one or the new sample, with new positions, and the memorised set, round and score are kept |
| MemoryTest.MemorySession.Respond | web/app/memory_test.py:164-194 | After the last round, a redirect and no change. Otherwise a submitted time is appended. Then, if one of the four entries was never written, the first missing one fails with KeyError and round and score are kept. If all four are present, the score rises by one iff the answer scores and the round rises by one. The session invariant is kept |
| MemoryTest.MemorySession.Average | web/app/memory_test.py:236 | The result page's average: 0 without times, their mean otherwise |
| Decorators.HoldsAny | web/app/decorators.py:16 | True iff the user holds some listed role |
| Decorators.RolesRequired | web/app/decorators.py:14-18 | 401 iff not authenticated (decorated_function's own check; the configured app redirects such a user at `@login_required` first). 403 iff authenticated without any listed role. Otherwise the view is called with the same arguments |
| Decorators.NoRolesForbidsEveryone | web/app/decorators.py:16-17 | An empty role list forbids every authenticated user |
| Decorators.ListedRoleAdmits | web/app/decorators.py:16-18 | Holding a listed role admits the user |
| Decorators.MoreRolesStillAdmit | web/app/decorators.py:16-18 | Listing more roles never shuts out an admitted user |
| ChartData.TagRecord | web/app/utilities/utils.py:26-34 | A record is read iff it has all four keys. Its point carries the date, time, "diffculty" and num_shapes, and its flag is the truth of "correct" |
| ChartData.Select | web/app/utilities/utils.py:34-37 | A selection is no longer than what it selects from |
| ChartData.Labels | web/app/utilities/utils.py:11 | One date label per assessment, in query order |
| ChartData.Scores | web/app/utilities/utils.py:12 | One score per assessment, in query order |
| ChartData.Averages | web/app/utilities/utils.py:17-23 | One (date, average reaction time) point per assessment, in order |
| ChartData.GetPatientAssessmentData | web/app/utilities/utils.py:11-39 | The nested loops yield the chart lists, or the first missing key |
| ChartData.AddReactions | web/app/utilities/utils.py:26-37 | The inner loop appends one assessment's points to the correct or the incorrect list by their flag, or stops at the first missing key |
| ChartData.RecordFailure | web/app/utilities/utils.py:26-32 | A record missing a key, after the earlier records went through, fails its assessment with that key |
| ChartData.AssessmentFailure | web/app/utilities/utils.py:17-37 | An assessment that fails, after the earlier ones went through, fails the whole call with its key |
| ChartData.TagFailure | web/app/utilities/utils.py:26-32 | A record missing a key makes the whole call fail with that key |
| ChartData.TagRecordsFailureSticks | web/app/utilities/utils.py:26-32 | A failing record decides its assessment's outcome |
| ChartData.TagAllFailureSticks | web/app/utilities/utils.py:17-37 | A failing assessment decides the outcome |
| ChartData.SelectAppend | web/app/utilities/utils.py:34-37 | The correct and incorrect lists grow in encounter order |
| ChartData.SelectPartition | web/app/utilities/utils.py:34-37 | Every point lands in exactly one of the two lists |
| ChartData.SelectMembers | web/app/utilities/utils.py:34-37 | A point is in the correct (incorrect) list iff it was tagged correct (incorrect) |
| ChartData.TagRecordsLength | web/app/utilities/utils.py:26-37 | One point per record of an assessment |
| ChartData.TagAllLength | web/app/utilities/utils.py:17-37 | One point per record over all assessments |
| ChartData.ChartsShape | web/app/utilities/utils.py:11-39 | Labels, scores and averages have one entry per assessment, and each average point is (date, average). The two reaction lists together hold one point per record |
| ChartData.TagRecordsAt | web/app/utilities/utils.py:26-32 | Point j of an assessment is the reading of its record j |
| ChartData.TagAllSucceeds | web/app/utilities/utils.py:17-37 | The call succeeds iff every assessment's records all succeed |
| ChartData.TagRecordsSucceeds | web/app/utilities/utils.py:26-32 | An assessment succeeds iff each of its records has all four keys |
| WatchStub.MakeSensorReading | web/tests/stubs/watch_stub.py:24-33 | Exactly the keys ts, x, y, z; ts is the given timestamp and the axes are the given values |
| WatchStub.MakeSensorDto | web/tests/stubs/watch_stub.py:36-53 | {metadata: {stage, trial, memStep}, data}: the stage and readings are unchanged, and trial and memStep are null iff absent |
| WatchStub.DtoDefaults | web/tests/stubs/watch_stub.py:36 | trial and memStep default to null |
| WatchStub.GaitReadings | web/tests/stubs/watch_stub.py:97-106 | One reading per sample |
| WatchStub.GenerateGait | web/tests/stubs/watch_stub.py:70-108 | The gait loop yields the specified readings, or the error for a negative count |
| WatchStub.GaitTimestamps | web/tests/stubs/watch_stub.py:81-99 | Reading i is stamped start + 20 i. The stamps strictly increase, with every gap 20 |
| WatchStub.GaitSampleCounts | web/tests/stubs/watch_stub.py:80 | 30 s give 1500 samples and 5 s give 250 |
| WatchStub.GaitSampleCountMonotone | web/tests/stubs/watch_stub.py:80 | A longer duration never gives fewer samples |
| WatchStub.Clamp | web/tests/stubs/watch_stub.py:147 | The result lies in [900, 4200], equals the draw inside it and the nearer bound outside |
| WatchStub.Fade | web/tests/stubs/watch_stub.py:171 | The fade is never negative, and at most 1 from the movement on |
| WatchStub.TrialReadings | web/tests/stubs/watch_stub.py:161-176 | One reading per sample of the window |
| WatchStub.GenerateTrial | web/tests/stubs/watch_stub.py:137-184 | The trial loop yields the specified payload, and the reaction time returned is the clamped draw |
| WatchStub.TrialSamples | web/tests/stubs/watch_stub.py:150-152 | A trial window has 235 samples |
| WatchStub.TrialPayloadShape | web/tests/stubs/watch_stub.py:150-183 | Stage "RT_TEST", the given trial and memStep, and 235 readings stamped stimulus + 20 i, the first at the stimulus time |
| WatchStub.MoveSampleBounds | web/tests/stubs/watch_stub.py:147-154 | The movement starts between samples 45 and 210 |
| WatchStub.TrialValuesPhases | web/tests/stubs/watch_stub.py:165-174 | Before the movement the readings are the rest draws; from 167 samples after it on they are 0 |
| TimingCalibration.Wrap | wearos/app/src/main/java/ca/carleton/rewatch/dataclasses/WatchTimingCalibration.kt:24 | Long arithmetic: congruent to the exact value modulo 2^64, and equal to it in range |
| TimingCalibration.QuotTruncates | wearos/app/src/main/java/ca/carleton/rewatch/dataclasses/WatchTimingCalibration.kt:21-24 | Kotlin's division truncates toward zero and keeps the dividend's sign |
| TimingCalibration.HalfRoundTrip | wearos/app/src/main/java/ca/carleton/rewatch/dataclasses/WatchTimingCalibration.kt:20-25 | Without overflow, the delay is half of (T4 - T1) - (T3ms - T2ms), the round-trip delay of section 8 of RFC 5905, truncated |
| TimingCalibration.DefaultIsZero | wearos/app/src/main/java/ca/carleton/rewatch/dataclasses/WatchTimingCalibration.kt:3-8 | The default calibration gives 0 |
| TimingCalibration.NonNegativeLegs | wearos/app/src/main/java/ca/carleton/rewatch/dataclasses/WatchTimingCalibration.kt:24 | Two non-negative legs give a non-negative delay |
| TimingCalibration.EqualLegs | wearos/app/src/main/java/ca/carleton/rewatch/dataclasses/WatchTimingCalibration.kt:24 | Two legs of d give d |
| TimingCalibration.NegativeHalvingTruncates | wearos/app/src/main/java/ca/carleton/rewatch/dataclasses/WatchTimingCalibration.kt:24 | (3, 0, 0, 0) gives -1: the halving truncates toward zero |
| TimingCalibration.SumWraps | wearos/app/src/main/java/ca/carleton/rewatch/dataclasses/WatchTimingCalibration.kt:24 | Legs summing to 2^63 wrap before the halving |
| WatchData.ReadingOf | wearos/app/src/main/java/ca/carleton/rewatch/presentation/AccelerometerManager.kt:39-46 | The reading carries the given time and values[0], values[1], values[2] |
| AccelerometerManagement.AccelerometerManager.constructor | wearos/app/src/main/java/ca/carleton/rewatch/presentation/AccelerometerManager.kt:15-18 | Idle, with an empty buffer |
| AccelerometerManagement.AccelerometerManager.Start | wearos/app/src/main/java/ca/carleton/rewatch/presentation/AccelerometerManager.kt:20-28 | While recording nothing changes; from idle recording starts with an empty buffer |
| AccelerometerManagement.AccelerometerManager.Stop | wearos/app/src/main/java/ca/carleton/rewatch/presentation/AccelerometerManager.kt:30-35 | Afterwards idle, with the buffer intact |
| AccelerometerManagement.AccelerometerManager.OnSensorChanged | wearos/app/src/main/java/ca/carleton/rewatch/presentation/AccelerometerManager.kt:37-48 | Exactly one reading of the event is appended iff recording and the event is linear acceleration; otherwise nothing changes |
| AccelerometerManagement.AccelerometerManager.IsRunning | wearos/app/src/main/java/ca/carleton/rewatch/presentation/AccelerometerManager.kt:52-54 | The recording flag |
| AccelerometerManagement.AccelerometerManager.RecordedData | wearos/app/src/main/java/ca/carleton/rewatch/presentation/AccelerometerManager.kt:16 | Exactly the buffer's contents |
| AccelerometerGathering.AccelerometerDataGathering.constructor | wearos/app/src/main/java/ca/carleton/rewatch/presentation/AccelerometerDataGathering.kt:20-21 | Idle, with an empty buffer |
| AccelerometerGathering.AccelerometerDataGathering.ToggleClick | wearos/app/src/main/java/ca/carleton/rewatch/presentation/AccelerometerDataGathering.kt:53-65 | From idle, recording starts with the buffer kept. While recording, it stops, shows the zeros and the idle status, and empties the buffer |
| AccelerometerGathering.AccelerometerDataGathering.HandleFinishedRecording | wearos/app/src/main/java/ca/carleton/rewatch/presentation/AccelerometerDataGathering.kt:67-71 | Empties the buffer and changes nothing else |
| AccelerometerGathering.AccelerometerDataGathering.OnSensorChanged | wearos/app/src/main/java/ca/carleton/rewatch/presentation/AccelerometerDataGathering.kt:28-50 | While recording, a linear-acceleration event appends its reading and shows its values; otherwise nothing changes |
| AccelerometerGathering.ToggleTwiceFromIdle | wearos/app/src/main/java/ca/carleton/rewatch/presentation/AccelerometerDataGathering.kt:53-71 | Two clicks from idle leave the screen idle with an empty buffer |

## Left out

- Database sessions, commits and the Celery wrappers are left out. A row lookup is an `Option` input, and the stored row is the returned datatype.
- The square roots are left out. A sample's norm is an input tied to its axes by `IsNormOf`; the rest of the model relies on this only for non-negativity.
- Recording.SortByTimestamp: ties keep their stored order (an insertion sort). pandas' default `sort_values` is not stable, so points with equal timestamps may come out in another order there; the gait and reaction results are stated for this one order.
- InjectionRouting.ParseInt: only ASCII whitespace and ASCII digits are modelled. int() also skips other Unicode whitespace and reads other Unicode decimal digits. The digit limit is CPython's default of 4300; an interpreter configured otherwise (another limit, 0 for none) or one that predates the limit is not modelled.
- Decimal.IntToString: str() of an int with more than 4300 digits raises ValueError in CPython; the model renders every int, so the NotFound text of such an id is not a failure here.
- Models.ToLower: lower-cases ASCII letters only, where Python's str.lower() lower-cases every Unicode letter. The decoder's verdict is unaffected: the only non-ASCII letter whose lower case is a single ASCII letter is the Kelvin sign, giving 'k', which "gait" and "reaction" do not contain. Only the text carried by a refused stage's error can differ.
- MemoryTest.RandomSample: the draw order is an index oracle into the shrinking pool, not CPython's own selection algorithm. The model states the count, distinctness, membership and the ValueError for a size outside 0 to 7.
- MemoryTest.MemorySession.Respond: on the KeyError path the reaction time has already been appended to the session's list, as the code does before it reads the missing key. Whether Flask keeps that change after the failed request is not modelled.
- MemoryTest.MemorySession.Valid: does not bound the number of reaction times by the round count, because a failing POST still appends its time.
- PeakIdentification.GaitResult: the model stores the population variance of the gaps where the task stores its square root, `np.std`.
- Float rounding is left out, because the model computes on exact reals. This covers Python floats, Kotlin `Float`, `round(x, 2)` in `make_sensor_reading` and `round(rt_ms, 2)`.
- The conversion of a ms timestamp to a `datetime` (time zones, date formatting) is left out. A point keeps its timestamp in ms, and an assessment's date label is an input string. Only the range check of `fromtimestamp` is modelled (see the next line).
- Models.FromJson and Models.DecodeResult: a ts is refused (`TimestampOutOfRange`) outside the years 1 to 9999 read in UTC, which stands for ValueError and OverflowError alike. A machine's local time offset shifts those bounds by up to a day. The rounding to microseconds at the upper bound is not modelled. Nor is the OSError that some platforms raise for any negative ts.
- The shapes of the pandas KeyError and TypeError raised on an empty recording, and their texts, are left out. The model has an `EmptyRecording` error instead.
- Randomness is left out: `random.sample`, `random.choice` and `random.randint`, the numpy normal draws, `random.gauss` and `random.random`. Draws are oracle functions or parameters, so the model says nothing about their distributions.
- The signal shapes of the gait generator (sines plus noise) are left out. The readings' values come from a signal function; the count and timestamps are modelled.
- Flask and Flask-Login are left out: routes, templates, flash messages, redirects by URL, the login redirect of `@login_required`, and `current_user`. Authentication is a boolean input.
- start_memory_test's choice of patient, and memory_result's patient lookup and stored PatientAssessment row, are left out, because they reach the database and the login.
- MemoryTest.MemorySession.constructor: num_rounds is held as an int. The session may store it as the form's string, and the code calls int() on it, which may raise.
- The memory-test customisation page is left out; its settings enter as the MemorySession's constructor arguments.
- Only the listed fields of the ORM models are modelled. The PatientAssessment's reaction records are an input to the chart data, because no such column exists in models.py. PatientAssessment (models.py:57-67) has no `reaction_records` attribute, so `assessment.reaction_records` (utils.py:26) raises AttributeError for any patient with an assessment. As written, `get_patient_assessment_data` succeeds only for a patient with none. The model's success case takes the attribute as supplied.
- The watch stub's HTTP client, polling and command-line entry point are left out.
- Android sensor registration and unregistration, `Log` calls and `onAccuracyChanged` are left out, because they change no modelled state.
- AccelerometerManagement.AccelerometerManager.RecordedData: returns the buffer's value. In Kotlin it is a live view of the mutable list, so a caller's reference sees later appends. That aliasing is not modelled.
- AccelerometerGathering.AccelerometerDataGathering.OnSensorChanged: an event with a null sensor is treated as not linear acceleration. The Kotlin code dereferences it without a null check.
- The on-screen texts "X: $x" etc. are kept as the numbers shown, without Float-to-text formatting. The views are taken as attached, although the screen shown never initialises them.
- The watch's calibration network exchange (`CalibrateTiming.kt`) and the view models that call these classes are not part of this model.
