# study-kit core, modelled in Dafny

This project models the self-contained logic of the study-kit student portal.

- **Land-area calculator.**
  - The degrees-minutes-seconds coordinate parser.
  - The local projection of GPS coordinates to metres.
  - The Shoelace polygon area.
  - The Bangladeshi land-unit conversions.
  - The calculator's state: coordinate lists, input mode, result and error.
- **Class-routine handling.**
  - The 5-minute slot list and the routine form's toggle, cell edit and submit checks.
  - The editable routine table.
  - The read-only view's 12-hour formatting, minute reading and slot list.
- **Result-API conversion** (`transformPookieResponse`).
- **Upload checks.** The file picker's size and accept-list validation, and the profile-image checks.
- **Storage naming and the download route.** Object names, paths and URLs, and the path extraction of the download route.
- **Content and profile API routes**, with the database abstracted.
- **Redirect decisions.** The middleware, `useAuth`, the `Auth` wrapper and `SessionCheck`. The edge rules are modelled as written in middeware.ts; Next.js loads only a file named `middleware.ts`, so in the deployed portal those rules do not run.
- **Session labels and file-path helpers.**

One Dafny module per source unit:

| module | models |
|---|---|
| `GpsParse` | `parseGPSCoordinate` |
| `Projection` | `gpsToMeters` |
| `Shoelace` | `calculatePolygonArea` |
| `LandUnits` | the unit table |
| `AreaCalculator` | the calculator component |
| `Routine` | the shared row record |
| `RoutineForm` | the routine form |
| `RoutineTable` | the routine table |
| `RoutineView` | the routine view |
| `ResultTransform` | the result conversion |
| `Uploads` | the two upload widgets |
| `Storage` | the storage service and the download route |
| `ContentApi` | the content route |
| `ProfileApi` | the student-profile route |
| `Redirects` | the four redirect decisions |
| `Sessions` | session labels |
| `FileUtils` | file-path helpers |

`Wrappers`, `Text` and `Lists` hold the shared pieces:

- `Option`/`Result`.
- The JavaScript string operations the code relies on: `split`, `join`, `trim` and `parseInt` over ASCII white space, `startsWith`, `padStart`, and `toLowerCase` on ASCII letters.
- Stable sorting, filtering, mapping and de-duplication of sequences.

Code that updates component state step by step is modelled as classes whose methods change fields:

- `AreaCalculator.Calculator`
- `RoutineTable.Table`
- `Uploads.FilePicker`
- `Uploads.ImagePicker`

Loops are methods proved against specification functions:

- `Shoelace.PolygonArea`
- `RoutineForm.GenerateTimeSlots`
- `AreaCalculator.ParseCoordinates`
- `ResultTransform.MapResultData`
- `ResultTransform.MapSubjects`
- `Uploads.FilePicker.ValidateFiles`

Expression-style code is modelled as functions, and its properties as lemmas.

Numbers are exact:

- Areas and coordinates are `real`, so every constant (10.764, 435.6, 720, …) is exact and the area facts hold exactly, before any display rounding.
- Integers are unbounded.
- JavaScript's NaN is `None` wherever the code can produce it.

Outside effects are parameters of the model:

| effect | modelled as |
|---|---|
| the clock | a parameter |
| random text | a parameter |
| `JSON.parse` | a function to `Option` |
| `encodeURIComponent` | a function |
| the trigonometric metres-per-degree factors | functions of the mean latitude |
| the database | a map of stored records, or a sequence of stored records |

`gpsToMeters` maps a single point to `[(0, 0)]`, as app/components/GPSAreaCalculator.tsx:71-97 does; see `Projection.ProjectionEmptyOnlyForEmpty`.

## Model

| member | source | states |
|---|---|---|
| GpsParse.DigitRunFrom | app/components/GPSAreaCalculator.tsx:40-41 | the length of the `\d+` run starting at a position stays inside the text |
| GpsParse.DigitRunFacts | app/components/GPSAreaCalculator.tsx:40-41 | the `\d+` run is maximal: every character in it is a digit and the one after it is not |
| GpsParse.SecondsRunFacts | app/components/GPSAreaCalculator.tsx:40-41 | the `[\d.]+` run is maximal: all digits or '.', and the next character is neither |
| GpsParse.MatchAt | app/components/GPSAreaCalculator.tsx:40-41 | a match of `(\d+)°(\d+)'([\d.]+)"([NS])` (or `[EW]`) at a position has non-empty digit groups for degrees and minutes, a non-empty seconds group and a hemisphere letter of the class |
| GpsParse.MatchAtSound | app/components/GPSAreaCalculator.tsx:40-41 | what the pattern matches at a position is spelt out there: the text from that position is degrees°minutes'seconds"h for the match's own groups, and the seconds group is made of `[\d.]` |
| GpsParse.MatchIsComponent | app/components/GPSAreaCalculator.tsx:40-41 | so every match is a complete DMS component of its hemisphere class |
| GpsParse.SearchFound | app/components/GPSAreaCalculator.tsx:40-41 | `match` returns the match found at some position at or after the start |
| GpsParse.SearchSkip | app/components/GPSAreaCalculator.tsx:40-41 | the search is leftmost: positions where the pattern does not match are passed over |
| GpsParse.MatchStartsWithDigit | app/components/GPSAreaCalculator.tsx:40-41 | no match starts at a character that is not a digit |
| GpsParse.NoMatchBeforeQuote | app/components/GPSAreaCalculator.tsx:40-41 | no match starts inside a DMS group whose hemisphere letter lies outside the class searched for |
| GpsParse.NoHemisphereNoMatch | app/components/GPSAreaCalculator.tsx:40-43 | a text with no letter of the hemisphere class has no match |
| GpsParse.MissingHemisphereFails | app/components/GPSAreaCalculator.tsx:40-66 | a coordinate with no N/S letter, or with no E/W letter, fails with "Failed to parse GPS coordinate: " followed by the input |
| GpsParse.MissingComponentFails | app/components/GPSAreaCalculator.tsx:34-68 | when the trimmed input holds no complete N/S component, or no complete E/W component, at any position, parsing fails with "Failed to parse GPS coordinate: " followed by the input |
| GpsParse.NoQuoteFails | app/components/GPSAreaCalculator.tsx:34-68 | a trimmed input without a closing '"' fails, whatever hemisphere letters it holds |
| GpsParse.NoSecondsFails | app/components/GPSAreaCalculator.tsx:34-68 | `24°24' N 88°37'E`, written without seconds, fails although it holds both hemisphere letters |
| GpsParse.ParseGpsCoordinate | app/components/GPSAreaCalculator.tsx:34-68 | `parseGPSCoordinate`; its success is stated by ParseRendered, its failure by MissingComponentFails and MissingHemisphereFails |
| GpsParse.TrimIsInfix | app/components/GPSAreaCalculator.tsx:37 | the normalised text is a contiguous part of the input |
| GpsParse.ParseSecondsRendered | app/components/GPSAreaCalculator.tsx:50-55 | `parseFloat` of "s.t" is s + t/10 |
| GpsParse.RenderedAt | app/components/GPSAreaCalculator.tsx:40-41 | a rendered DMS component found in a text puts its digits, '°', ''', '"' and hemisphere letter at the expected positions |
| GpsParse.MatchLayoutAt | app/components/GPSAreaCalculator.tsx:40-41 | degrees°minutes'seconds"h matches at its first digit with exactly those groups |
| GpsParse.MatchPositions | app/components/GPSAreaCalculator.tsx:40-41 | the same, stated by character positions |
| GpsParse.MatchAtFound | app/components/GPSAreaCalculator.tsx:40-41 | when the three runs end at '°', ''' and '"' followed by a hemisphere letter, the match holds the text of each run |
| GpsParse.MatchRendered | app/components/GPSAreaCalculator.tsx:40-41 | a rendered component matches where it stands, with its own groups |
| GpsParse.MatchDegreesRendered | app/components/GPSAreaCalculator.tsx:48-59 | the groups of a rendered component give deg + min/60 + sec/3600 |
| GpsParse.RenderSkippable | app/components/GPSAreaCalculator.tsx:40-41 | a rendered component of the other hemisphere class cannot hold a match |
| GpsParse.SkipFirst | app/components/GPSAreaCalculator.tsx:40-41 | the search passes over a leading component of the other hemisphere and the space after it |
| GpsParse.SkipPrefix | app/components/GPSAreaCalculator.tsx:40-41 | the search passes over every position up to the letter after a closing '"' |
| GpsParse.SearchRendered | app/components/GPSAreaCalculator.tsx:40-41 | searching from a rendered component of the class finds that component |
| GpsParse.SearchAtMatch | app/components/GPSAreaCalculator.tsx:40-41 | a match at the start position is the search's answer |
| GpsParse.SearchSecond | app/components/GPSAreaCalculator.tsx:40-41 | in "first second", where only the second is of the class, the search finds the second |
| GpsParse.SearchSecondAt | app/components/GPSAreaCalculator.tsx:40-41 | whatever the search finds after a skippable first component is its answer from the start |
| GpsParse.SearchAfterSpace | app/components/GPSAreaCalculator.tsx:40-41 | searching just after the space finds the component that follows it |
| GpsParse.SearchFirst | app/components/GPSAreaCalculator.tsx:40-41 | in "first second", where the first is of the class, the search finds the first |
| GpsParse.TrimRendered | app/components/GPSAreaCalculator.tsx:37 | trimming leaves a rendered coordinate unchanged |
| GpsParse.ParseFromMatches | app/components/GPSAreaCalculator.tsx:34-64 | when the two searches find rendered components, the result is their signed decimal degrees |
| GpsParse.ParseOfSearches | app/components/GPSAreaCalculator.tsx:34-64 | a proof step towards ParseFromMatches and ParseRendered: when both searches find a match, the success result in terms of their groups |
| GpsParse.HemisphereValue | app/components/GPSAreaCalculator.tsx:48-62 | a component's value is deg + min/60 + sec/3600, negated exactly when its letter is the class's negating one (S for latitude, W for longitude) |
| GpsParse.ParseLatFirst | app/components/GPSAreaCalculator.tsx:34-64 | "lat lng" parses to the signed decimal degrees of both components |
| GpsParse.ParseLngFirst | app/components/GPSAreaCalculator.tsx:34-64 | "lng lat" parses to the same coordinate: the two searches do not depend on order |
| GpsParse.ParseRendered | app/components/GPSAreaCalculator.tsx:34-64 | both orders of a rendered coordinate parse to the same signed decimal degrees |
| GpsParse.SampleCoordinate | app/components/GPSAreaCalculator.tsx:137 | the default coordinate 24°24'10.5"N 88°37'34.7"E parses to 24 + 24/60 + 10.5/3600 and 88 + 37/60 + 34.7/3600 |
| Projection.GpsToMeters | app/components/GPSAreaCalculator.tsx:71-97 | same length and order; the first point maps to (0, 0); differences of x and y are the lng and lat differences times the two factors at the mean latitude |
| Projection.AvgLat | app/components/GPSAreaCalculator.tsx:75 | the mean latitude the factors are taken at; the projection facts are stated by GpsToMeters and ProjectionIsAffine |
| Projection.ProjectionIsAffine | app/components/GPSAreaCalculator.tsx:82-97 | the projection shifts by the first point and scales lng and lat by the two factors |
| Projection.ProjectedArea | app/components/GPSAreaCalculator.tsx:71-116 | the projected area is the degree-space area times the absolute product of the factors |
| Projection.ProjectionEmptyOnlyForEmpty | app/components/GPSAreaCalculator.tsx:72-97 | the projection is empty only for no input, and a single point gives [(0, 0)] |
| Shoelace.Abs | app/components/GPSAreaCalculator.tsx:115 | `Math.abs` is non-negative and equals the value or its negation |
| Shoelace.Area | app/components/GPSAreaCalculator.tsx:101-116 | the area is never negative and is 0 for fewer than three points |
| Shoelace.PolygonArea | app/components/GPSAreaCalculator.tsx:101-116 | the loop of x[i]·y[j] − x[j]·y[i], with j = (i + 1) mod n, computes \|Σ\|/2 |
| Shoelace.EdgeSum | app/components/GPSAreaCalculator.tsx:108-112 | the sum of the first k loop terms; EdgeSumPrefix and EdgeSumIsCycleSum state what it adds up |
| Shoelace.EdgeSumPrefix | app/components/GPSAreaCalculator.tsx:107-112 | the first k + 1 terms of the loop sum the edges of the first k + 1 points |
| Shoelace.EdgeSumIsCycleSum | app/components/GPSAreaCalculator.tsx:107-112 | the whole loop sums the chain of edges plus the closing edge |
| Shoelace.ChainSnoc | app/components/GPSAreaCalculator.tsx:107-112 | one more point adds one more edge term |
| Shoelace.Reverse | app/components/GPSAreaCalculator.tsx:538 | the reversed vertex list holds the same points in the opposite order |
| Shoelace.ChainReverse | app/components/GPSAreaCalculator.tsx:107-112 | reversing the points negates the chain sum |
| Shoelace.CycleReverse | app/components/GPSAreaCalculator.tsx:107-112 | reversing the points negates the closed sum |
| Shoelace.AreaReverse | app/components/GPSAreaCalculator.tsx:108-115 | clockwise and counter-clockwise orders give the same area |
| Shoelace.Shift | app/components/GPSAreaCalculator.tsx:93-94 | translating keeps the number of points |
| Shoelace.Scale | app/components/GPSAreaCalculator.tsx:93-94 | scaling keeps the number of points |
| Shoelace.CrossShift | app/components/GPSAreaCalculator.tsx:110-111 | how one edge term changes under translation |
| Shoelace.ChainShift | app/components/GPSAreaCalculator.tsx:107-112 | the chain sum changes under translation only by terms of the first and last points |
| Shoelace.CycleShift | app/components/GPSAreaCalculator.tsx:107-112 | the closed sum does not change under translation |
| Shoelace.CrossScale | app/components/GPSAreaCalculator.tsx:110-111 | scaling x by a and y by b multiplies an edge term by a·b |
| Shoelace.ScaleTail | app/components/GPSAreaCalculator.tsx:93-94 | scaling commutes with dropping the first point |
| Shoelace.ScaledEdge | app/components/GPSAreaCalculator.tsx:110-111 | an edge term of the scaled list is a·b times the original one |
| Shoelace.ChainScale | app/components/GPSAreaCalculator.tsx:107-112 | scaling multiplies the chain sum by a·b |
| Shoelace.CycleScale | app/components/GPSAreaCalculator.tsx:107-112 | scaling multiplies the closed sum by a·b |
| Shoelace.AbsProduct | app/components/GPSAreaCalculator.tsx:115 | \|c·r\| = \|c\|·\|r\| |
| Shoelace.AreaAffine | app/components/GPSAreaCalculator.tsx:101-116 | shifting and then scaling by (a, b) multiplies the area by \|a·b\| |
| Shoelace.AreaAffinePolygon | app/components/GPSAreaCalculator.tsx:101-116 | the same for three or more points |
| Shoelace.RectangleArea | app/components/GPSAreaCalculator.tsx:101-116 | the axis-aligned w × h rectangle from the origin has area \|w·h\| |
| Shoelace.SampleSquareArea | app/components/GPSAreaCalculator.tsx:171-177 | the 10 m × 10 m sample square has area 100 |
| LandUnits.Convert | app/components/GPSAreaCalculator.tsx:224-240 | squareFeet = m²·10.764; katha, decimal, bigha, acre and kani are squareFeet over 720, 435.6, 14400, 43560 and 17280; shotok = decimal |
| LandUnits.KathaIsTwentyBigha | app/components/GPSAreaCalculator.tsx:235-237 | katha = 20·bigha exactly |
| LandUnits.DecimalIsHundredAcre | app/components/GPSAreaCalculator.tsx:236-239 | decimal = shotok = 100·acre exactly |
| LandUnits.KaniIsNotFortyShotok | app/components/GPSAreaCalculator.tsx:236-240 | for any non-zero area, kani ≠ 40·shotok: 40 × 435.6 = 17424 ≠ 17280, so the help text's "1 Kani = 40 Shotok" (line 556) does not follow from the constants |
| LandUnits.ConvertNonNegative | app/components/GPSAreaCalculator.tsx:224-240 | a non-negative area gives non-negative values in every unit |
| LandUnits.SampleSquareUnits | app/components/GPSAreaCalculator.tsx:224-240 | 100 m² is 1076.4 ft², 1.495 katha and 0.07475 bigha |
| AreaCalculator.RemoveAt | app/components/GPSAreaCalculator.tsx:124 | filtering by index deletes exactly that index and keeps the rest in order; an index out of range changes nothing |
| AreaCalculator.WithField | app/components/GPSAreaCalculator.tsx:131 | writing x or y changes that field only |
| AreaCalculator.ParseAll | app/components/GPSAreaCalculator.tsx:204-212 | success gives one parsed coordinate per string, in order; failure names the first string that does not parse, every earlier one having parsed |
| AreaCalculator.ParseAllSucceedsIff | app/components/GPSAreaCalculator.tsx:204-212 | the list parses exactly when every string parses |
| AreaCalculator.FirstFailure | app/components/GPSAreaCalculator.tsx:205-211 | the first unparsable string aborts with "Invalid GPS coordinate: " followed by the string |
| AreaCalculator.AllParsed | app/components/GPSAreaCalculator.tsx:204-208 | when all strings parse, the result is the list of their coordinates |
| AreaCalculator.ParseCoordinates | app/components/GPSAreaCalculator.tsx:204-212 | the `for … of` loop with its early return computes `ParseAll` |
| AreaCalculator.TooFewInputsFail | app/components/GPSAreaCalculator.tsx:188-201 | fewer than three inputs in the active mode fail with that mode's message, before any parsing |
| AreaCalculator.FirstInvalidCoordinate | app/components/GPSAreaCalculator.tsx:198-212 | in GPS mode with three or more strings, the first unparsable one is reported and nothing is computed |
| AreaCalculator.GpsOutcomeArea | app/components/GPSAreaCalculator.tsx:198-240 | when every string parses, the result converts \|lngFactor·latFactor\| times the area of the coordinates in degrees |
| AreaCalculator.Calculator.constructor | app/components/GPSAreaCalculator.tsx:27-31 | manual mode, no coordinates, no result, no error |
| AreaCalculator.Calculator.SetMode | app/components/GPSAreaCalculator.tsx:286-305 | the mode tabs set the mode and clear the error and the result; the coordinate lists are unchanged |
| AreaCalculator.Calculator.AddCoordinate | app/components/GPSAreaCalculator.tsx:118-121 | appends (0, 0) and clears the error |
| AreaCalculator.Calculator.RemoveCoordinate | app/components/GPSAreaCalculator.tsx:123-127 | deletes index i, keeps the others in order and clears the result |
| AreaCalculator.Calculator.UpdateCoordinate | app/components/GPSAreaCalculator.tsx:129-134 | changes one field of one point, nothing else in the list, and clears the result |
| AreaCalculator.Calculator.AddGpsCoordinate | app/components/GPSAreaCalculator.tsx:136-139 | appends the default coordinate text and clears the error |
| AreaCalculator.Calculator.RemoveGpsCoordinate | app/components/GPSAreaCalculator.tsx:141-145 | deletes index i of the GPS strings and clears the result |
| AreaCalculator.Calculator.UpdateGpsCoordinate | app/components/GPSAreaCalculator.tsx:147-152 | replaces one GPS string and clears the result |
| AreaCalculator.Calculator.LoadSample | app/components/GPSAreaCalculator.tsx:154-179 | GPS mode loads the eight sample strings; manual mode loads the 10 m square; the error and the result are cleared |
| AreaCalculator.Calculator.ClearAll | app/components/GPSAreaCalculator.tsx:257-262 | empties both lists and clears the result and the error |
| AreaCalculator.Calculator.CalculateArea | app/components/GPSAreaCalculator.tsx:181-255 | on failure the error is set and the old result kept; on success the error is '' and the result is the conversion of the area |
| AreaCalculator.SampleSquareCalculation | app/components/GPSAreaCalculator.tsx:171-240 | the manual sample square yields the conversion of exactly 100 m² |
| Routine.Row.With | app/components/RoutineTable.tsx:43-46 | a row with one day's cell replaced: the time and the other days are unchanged |
| Routine.EmptyRow | app/components/CreateRoutineForm.tsx:63-72 | a row with the given time and no class on any day |
| Routine.EditCell | app/components/RoutineTable.tsx:42-46 | a null cell becomes {subject: '', teacher: ''} before the field is written; the other field is kept |
| Routine.JoinedHalves | app/components/RoutineTable.tsx:53-58 | "a - b" splits on " - " into a and b when a has no '-' and b has no " - " |
| Routine.StartHalf | app/components/RoutineTable.tsx:130 | the start shown for a time, the part before the first " - "; JoinedHalves and the edit lemmas state it |
| Routine.EndHalf | app/components/RoutineTable.tsx:138 | the end shown for a time, the part after the first " - " or ''; JoinedHalves and the edit lemmas state it |
| RoutineForm.TimeSlots | app/components/CreateRoutineForm.tsx:43-58 | there are 119 slots |
| RoutineForm.GenerateTimeSlots | app/components/CreateRoutineForm.tsx:43-59 | the nested hour/minute loops push exactly the slot list, skipping any slot that would end after hour 17 |
| RoutineForm.SlotStartingAt | app/components/CreateRoutineForm.tsx:47-51 | the text built for hour:minute is the padded slot starting there, and the end hour is that of five minutes later |
| RoutineForm.SlotAt | app/components/CreateRoutineForm.tsx:47-51 | the slot text is the padded start and the padded end, with the minutes carried into the hour at 60 |
| RoutineForm.ClockOf | app/components/CreateRoutineForm.tsx:47 | the clock text of h:m is `padStart(2, '0')` of h, ':', and `padStart(2, '0')` of m |
| RoutineForm.ClockText | app/components/CreateRoutineForm.tsx:47 | the padded HH:MM text of a minute count; stated by ClockOf and ClockTextShape |
| RoutineForm.ClockTextShape | app/components/CreateRoutineForm.tsx:47-51 | a clock text is HH:MM and reads back as its minute count |
| RoutineForm.TimeSlotMinutes | app/components/CreateRoutineForm.tsx:45-58 | slot k starts 480 + 5k minutes after midnight, ends 5 minutes later, no later than 17:55, with both halves zero-padded HH:MM |
| RoutineForm.TimeSlotsIncrease | app/components/CreateRoutineForm.tsx:45-58 | start times strictly increase, so the slots are distinct |
| RoutineForm.FirstSlot | app/components/CreateRoutineForm.tsx:45-54 | the first slot is "08:00 - 08:05" |
| RoutineForm.LastSlot | app/components/CreateRoutineForm.tsx:45-58 | the last slot is "17:50 - 17:55" |
| RoutineForm.FormSessionsRead | app/components/CreateRoutineForm.tsx:26-33 | "All", then labels Y-yy for Y = currentYear down to currentYear − 3, with yy the last two digits of Y + 1 |
| RoutineForm.ToggleTimeEffect | app/components/CreateRoutineForm.tsx:74-83 | a present time yields the rows filtered by time: every row with the time is gone, every other row is kept as often as it occurs and in its order; an absent time gains one empty row at the end |
| RoutineForm.ToggleTime | app/components/CreateRoutineForm.tsx:74-83 | `handleTimeSlotChange`; stated by ToggleTimeEffect, ToggleKeepsTimesUnique and ToggleTwiceRestores |
| Lists.FilterKeeps | app/components/CreateRoutineForm.tsx:78 | `filter` keeps each admitted element as often as it occurs, and what it keeps of a prefix comes before what it keeps of the rest |
| Lists.SortStable | app/components/ViewRoutineTable.tsx:70 | `sort` is stable: the elements of any one key come out in the order they went in, each as often as it occurred, so slots with equal start minutes keep their first-appearance order |
| Lists.InsertStable | services/pookieApiService.ts:200 | one insertion into a sorted list puts the new element after every element with its key |
| RoutineForm.ToggleKeepsTimesUnique | app/components/CreateRoutineForm.tsx:74-83 | row times stay unique under toggling |
| RoutineForm.ToggleTwiceRestores | app/components/CreateRoutineForm.tsx:74-83 | toggling an absent time twice restores the list |
| RoutineForm.ClassChange | app/components/CreateRoutineForm.tsx:85-100 | the map keeps the number of rows |
| RoutineForm.ClassChangeEffect | app/components/CreateRoutineForm.tsx:85-100 | rows with another time are unchanged; rows with the time change only the given field of the given day, a null cell first becoming an empty pair |
| RoutineForm.SubmitChecks | app/components/CreateRoutineForm.tsx:107-126 | rejects a blank title, then an empty session, then an empty routine; otherwise builds the five form fields |
| RoutineForm.BlankTitleRejected | app/components/CreateRoutineForm.tsx:108-110 | a title of white space only, a lone vertical tab included, is rejected with "Title is required" |
| RoutineForm.Submit | app/components/CreateRoutineForm.tsx:107-126 | `handleSubmit` up to the request; stated by SubmitChecks and BlankTitleRejected |
| RoutineTable.InitialRows | app/components/RoutineTable.tsx:22-38 | initialData when it is non-empty, else one row with time '' and all days null |
| RoutineTable.EditedTime | app/components/RoutineTable.tsx:51-59 | "value - old end" or "old start - value", the missing half read as '' |
| RoutineTable.StartEditReadBack | app/components/RoutineTable.tsx:53-56 | after setting the start to a value without '-', the start reads back as the value and the end is unchanged |
| RoutineTable.StartEditDashValue | app/components/RoutineTable.tsx:53-56 | a start value ending in " -" does not read back whole |
| RoutineTable.EndEditReadBack | app/components/RoutineTable.tsx:53-58 | after setting the end, the start is unchanged and the end reads back as the value |
| RoutineTable.WithoutIndex | app/components/RoutineTable.tsx:72 | deletes exactly the indexed row and keeps the rest in order; an index out of range changes nothing |
| RoutineTable.Table.constructor | app/components/RoutineTable.tsx:36-38 | the rows start as the initial rows; at least one row exists |
| RoutineTable.Table.ClassChange | app/components/RoutineTable.tsx:40-49 | changes only the chosen field of cell [row][day] and reports the new rows |
| RoutineTable.Table.TimeChange | app/components/RoutineTable.tsx:51-63 | changes only the row's time, to the edited time, and reports the new rows |
| RoutineTable.Table.AddTimeSlot | app/components/RoutineTable.tsx:65-68 | appends exactly one empty row and reports the new rows |
| RoutineTable.Table.RemoveTimeSlot | app/components/RoutineTable.tsx:70-77 | deletes the row only when more than one exists, so the table never becomes empty; reports the rows whenever more than one row exists, even for an index out of range |
| RoutineView.Format12HourUnchanged | app/components/ViewRoutineTable.tsx:27-28 | a half without ':', or with nothing before it, is returned unchanged |
| RoutineView.Format12HourNoMinutes | app/components/ViewRoutineTable.tsx:27-28 | a half with nothing after ':' is returned unchanged |
| RoutineView.Format12HourDigits | app/components/ViewRoutineTable.tsx:26-34 | "h:mm" becomes (h mod 12, with 0 shown as 12):mm, then PM when h ≥ 12 and AM otherwise; the minutes text is kept verbatim |
| RoutineView.TwelveHourRoundTrip | app/components/ViewRoutineTable.tsx:31-32 | hour12 is between 1 and 12, and hour12 with AM/PM gives the 24-hour value back |
| RoutineView.ConvertUnchanged | app/components/ViewRoutineTable.tsx:20-24 | '' gives ''; a time without " - ", or with nothing before or nothing after it, is returned unchanged |
| RoutineView.ConvertTo12Hour | app/components/ViewRoutineTable.tsx:20-37 | `convertTo12Hour`; stated by ConvertUnchanged, ConvertJoined and ConvertDigitSlot |
| RoutineView.Format12Hour | app/components/ViewRoutineTable.tsx:26-34 | `format12Hour`; stated by Format12HourDigits, Format12HourUnchanged and Format12HourNoMinutes |
| RoutineView.ConvertJoined | app/components/ViewRoutineTable.tsx:20-36 | "a - b" becomes format12Hour(a) - format12Hour(b) |
| RoutineView.FormatDigitHalf | app/components/ViewRoutineTable.tsx:26-34 | a digit half "hh:mm" takes the 12-hour form of its hour value |
| RoutineView.ConvertDigitSlot | app/components/ViewRoutineTable.tsx:20-36 | a digit slot converts half by half |
| RoutineView.ConvertAfternoonSample | app/components/ViewRoutineTable.tsx:20-36 | "13:30 - 14:45" shows as "1:30 PM - 2:45 PM" |
| RoutineView.ConvertMidnightSample | app/components/ViewRoutineTable.tsx:20-36 | "00:15 - 00:20" shows as "12:15 AM - 12:20 AM" |
| RoutineView.JsNumberDigits | app/components/ViewRoutineTable.tsx:45 | `Number` of a digit string is its value |
| RoutineView.MinutesOfSlot | app/components/ViewRoutineTable.tsx:39-49 | a slot's minutes are 60·h + m of its start half |
| RoutineView.MinutesOfClock | app/components/ViewRoutineTable.tsx:39-49 | "hh:mm" alone reads as 60·h + m |
| RoutineView.MinutesWithoutColon | app/components/ViewRoutineTable.tsx:39-49 | a start half without ':' reads as 0 |
| RoutineView.GetTimeInMinutes | app/components/ViewRoutineTable.tsx:39-49 | `getTimeInMinutes`; stated by MinutesOfSlot, MinutesOfClock and MinutesWithoutColon |
| RoutineView.FirstWithTime | app/components/ViewRoutineTable.tsx:63 | `find` gives the first row with the time, or none when no row has it |
| RoutineView.DistinctTimesFacts | app/components/ViewRoutineTable.tsx:59-61 | the times are distinct and are exactly the non-empty row times |
| RoutineView.DistinctTimes | app/components/ViewRoutineTable.tsx:59-61 | the distinct non-empty times; stated by DistinctTimesFacts |
| RoutineView.DisplayedSlotsAreMade | app/components/ViewRoutineTable.tsx:62-71 | each shown slot is built from a distinct time, with the class of the first row having that time, and has a class |
| RoutineView.DisplaySlotsShape | app/components/ViewRoutineTable.tsx:59-71 | shown slots are in ascending start-minute order, each time at most once and never '', and every one has a class on the day |
| RoutineView.DisplaySlotsComplete | app/components/ViewRoutineTable.tsx:59-71 | every non-empty time with a class on the day is shown |
| RoutineView.DisplaySlots | app/components/ViewRoutineTable.tsx:59-71 | the slots shown for a day; stated by DisplaySlotsShape, DisplaySlotsComplete and DisplayedSlotsAreMade |
| ResultTransform.ReferredOf | services/pookieApiService.ts:174-182 | a referred subject has its entry's semester, the integer before the first '(' as code, type 'T' and passed false |
| ResultTransform.ReferredsOf | services/pookieApiService.ts:173-190 | one referred subject per `ref_subjects` name, in order |
| ResultTransform.SemesterOf | services/pookieApiService.ts:157-197 | one exam result with the entry's date, semester and institute code; the gpa is present iff the entry passed ("0" when a passed entry has none) |
| ResultTransform.MapResults | services/pookieApiService.ts:157-197 | one semester entry per result, in order |
| ResultTransform.Collected | services/pookieApiService.ts:185-187 | the collected subjects are some of the referred subjects, no more of them |
| ResultTransform.CollectedDistinctCodes | services/pookieApiService.ts:185-187 | no two collected subjects share a subject code |
| ResultTransform.CollectedCodes | services/pookieApiService.ts:185-187 | a code is held after collecting exactly when some referred subject has it |
| ResultTransform.CollectedKeepsFirst | services/pookieApiService.ts:185-187 | each collected subject is the first occurrence of its code in resultData order |
| ResultTransform.CollectedKeepsNaN | services/pookieApiService.ts:175-185 | a subject whose code is NaN is always kept, since NaN equals no code |
| ResultTransform.CollectedFacts | services/pookieApiService.ts:185-187 | the facts above for one collection |
| ResultTransform.MapSubjects | services/pookieApiService.ts:174-190 | the inner map builds the referred subjects and pushes each new code into the collection |
| ResultTransform.Transform | services/pookieApiService.ts:146-224 | the method computes the record defined by the whole conversion |
| ResultTransform.MapResultData | services/pookieApiService.ts:157-197 | the loop over the results builds one semester entry per result, in order, and collects the referred subjects of all of them, first code first |
| ResultTransform.MapEntry | services/pookieApiService.ts:157-197 | the callback builds the result's semester entry and extends the collection with that entry's referred subjects |
| ResultTransform.SortedEntries | services/pookieApiService.ts:200 | sorting entries of one exam result each by descending semester keeps their number and contents, one exam result each, highest semester first |
| ResultTransform.SemesterResultsShape | services/pookieApiService.ts:157-200 | semester_results is a permutation of the per-entry results, one exam result each, sorted by semester in descending order |
| ResultTransform.SemesterResultsFromEntries | services/pookieApiService.ts:157-197 | every semester entry comes from some result entry, and its gpa is present iff that entry passed |
| ResultTransform.LatestIsHighest | services/pookieApiService.ts:200-208 | latest_result is null iff there are no results, and otherwise it is the exam result of a highest semester |
| ResultTransform.CurrentReferredsFacts | services/pookieApiService.ts:146-220 | current_reffereds has unique codes, keeps first occurrences, covers every code and keeps every NaN-coded subject |
| ResultTransform.SubjectCodeOfDigits | services/pookieApiService.ts:175 | "123(…)" has subject code 123 |
| ResultTransform.SubjectCode | services/pookieApiService.ts:175 | `parseInt` of the text before the first '('; stated by SubjectCodeOfDigits and CollectedKeepsNaN |
| ResultTransform.GpaText | services/pookieApiService.ts:162 | the gpa text, '0' when missing or ''; stated by SemesterOf |
| ResultTransform.TransformOf | services/pookieApiService.ts:146-224 | `transformPookieResponse` as one expression; computed by Transform and stated by SemesterResultsShape, LatestIsHighest and CurrentReferredsFacts |
| Uploads.AcceptedTypes | app/components/FileUpload.tsx:35 | the accept string split on ',' with each entry trimmed |
| Uploads.FileError | app/components/FileUpload.tsx:27-53 | a file fails iff it exceeds maxSize MiB or its type is not accepted; the size is checked first, and each failure has its message |
| Uploads.FirstFailing | app/components/FileUpload.tsx:23-55 | the index of the first failing file, or none when all pass |
| Uploads.StarSkipsTypes | app/components/FileUpload.tsx:34 | with accept '*' only the size is checked |
| Uploads.ExtensionAfterLastDot | app/components/FileUpload.tsx:37 | the extension is '.' and the text after the name's last '.' |
| Uploads.ExtensionWithoutDot | app/components/FileUpload.tsx:37 | a name without '.' gives '.' and the whole name |
| Uploads.WildcardEntry | app/components/FileUpload.tsx:43-45 | an 'x/*' entry matches exactly the MIME types starting with 'x' |
| Uploads.FileExtension | app/components/FileUpload.tsx:37 | '.' and the last '.'-separated part of the name; stated by ExtensionAfterLastDot and ExtensionWithoutDot |
| Uploads.EntryMatches | app/components/FileUpload.tsx:39-47 | one accept entry against a file; stated by WildcardEntry and FileError |
| Uploads.FirstFailingAt | app/components/FileUpload.tsx:23-52 | the loop's early return is at the first failing file |
| Uploads.FilePicker.constructor | app/components/FileUpload.tsx:15-20 | no error, not loading, nothing selected |
| Uploads.FilePicker.ValidateFiles | app/components/FileUpload.tsx:22-56 | true iff every file passes; otherwise the error of the first failing file is shown |
| Uploads.FilePicker.HandleFiles | app/components/FileUpload.tsx:58-75 | nothing for a null or empty list; otherwise the files are handed on only after successful validation, and loading ends false |
| Uploads.ImageError | app/components/ProfileImageUpload.tsx:19-29 | a non-image type is rejected first, then a size over 5 MiB |
| Uploads.ImagePicker.constructor | app/components/ProfileImageUpload.tsx:12-13 | not uploading, no error |
| Uploads.ImagePicker.HandleImageUpload | app/components/ProfileImageUpload.tsx:15-54 | nothing without a file; a failed check sends nothing; otherwise the file is sent and the first returned URL handed to onUpload |
| Storage.UploadFile | services/gcsService.ts:26-68 | keeps the file's name and type; the path is folder/name; the URL is the storage host, the bucket and the path |
| Storage.UploadFiles | services/gcsService.ts:78-84 | one result per file, in input order |
| Storage.ChosenFolder | app/api/upload/route.ts:21 | the folder given, or 'uploads' when the field is missing or '' |
| Storage.ObjectName | services/gcsService.ts:32-36 | the stored name; stated by ObjectNameStartsWithTimestamp |
| Storage.GcsPath | services/gcsService.ts:39 | folder/name; stated by UploadFile |
| Storage.FileUrl | services/gcsService.ts:61 | the public URL of a path; stated by UrlSegments and DownloadRoundTrip |
| Storage.ObjectNameStartsWithTimestamp | services/gcsService.ts:32-36 | the object name starts with the timestamp's digits followed by '-' and parses back to the timestamp |
| Storage.FindIndex | app/api/download/route.ts:31 | `findIndex` gives the first equal segment, or -1 when there is none |
| Storage.Download | app/api/download/route.ts:8-46 | 401 without a session; 400 without a URL; 410 for a non-storage URL; 400 iff no segment is the bucket |
| Storage.SplitSlashPrefixed | app/api/download/route.ts:30 | segments without '/' placed in front of a text are split off again, in order |
| Storage.UrlSegments | app/api/download/route.ts:30 | a storage URL splits into "https:", "", the host, the bucket and the path's own segments |
| Storage.BucketIsFourth | app/api/download/route.ts:31 | the bucket is found as segment 3 |
| Storage.DownloadRoundTrip | app/api/download/route.ts:30-36 | for a URL built by the upload service, the route extracts exactly the stored path |
| Storage.UploadThenDownload | services/gcsService.ts:61 | every uploaded file's URL downloads its own path |
| ContentApi.Post | app/api/content/route.ts:7-67 | 401 without a user; 400 for bad routine data, then for bad attachments; otherwise a record with 'All' defaults, routine content '' and parsed data, or the form content and [] |
| ContentApi.BuildQuery | app/api/content/route.ts:100-128 | the query selects exactly the items of the requested type and department (when given and not 'all') and, for a student, the items visible to them |
| ContentApi.FindFacts | app/api/content/route.ts:131-133 | at most 50 matching stored records, newest first; all of them when there are no more than 50; any left out is no newer than the last one returned |
| ContentApi.Find | app/api/content/route.ts:131-133 | the stored records the query selects, newest first, at most 50; stated by FindFacts |
| ContentApi.Visible | app/api/content/route.ts:113-128 | the student's session or 'All', and department or 'All'; stated by BuildQuery and List |
| ContentApi.List | app/api/content/route.ts:89-136 | 401 without a session; otherwise at most 50 records, newest first, each wanted and, for a student, visible; a wanted record is left out only when 50 are listed and the last of them is at least as new, so every wanted record is listed when fewer come back |
| ProfileApi.ProfileOf | app/api/student/profile/route.ts:34-45 | identity fields as stored; department 'Survey Technology' and regulation 2022 by default; contact fields as stored |
| ProfileApi.GetProfile | app/api/student/profile/route.ts:7-48 | 401 without a session, 404 for an unknown student, otherwise the profile |
| ProfileApi.UpdateData | app/api/student/profile/route.ts:76-81 | only allowed fields remain |
| ProfileApi.UpdateDataIsRestriction | app/api/student/profile/route.ts:73-81 | the update is exactly the request restricted to the five allowed fields |
| ProfileApi.PutProfile | app/api/student/profile/route.ts:59-107 | 401 and 404 change nothing; otherwise only the student's record changes and the answer is its new profile |
| ProfileApi.PutKeepsIdentity | app/api/student/profile/route.ts:73-87 | PUT never changes name, studentId, session, department or regulation |
| ProfileApi.PutWritesAllowed | app/api/student/profile/route.ts:73-87 | each allowed field in the request is written, every other contact field kept |
| Redirects.Middleware | middeware.ts:5-34 | '/uploads/' passes first; a token on '/auth…' goes to the user's dashboard; a student on '/dashboard…' goes to '/student/dashboard'; a teacher on '/student/dashboard…' goes to '/dashboard'; there is no redirect without a token |
| Redirects.EdgeGate | middeware.ts:35-49 | only the five matcher paths are covered; a covered request without a token goes to sign-in; otherwise the middleware runs |
| Redirects.Authorized | middeware.ts:37 | a request is authorised exactly when it carries a token; stated by EdgeGate |
| Redirects.UploadsAreMatched | middeware.ts:42-49 | every '/uploads/' path is covered by the matcher |
| Redirects.MiddlewareSettles | middeware.ts:5-34 | a redirect target is let through for the same token |
| Redirects.UseAuth | hooks/useAuth.ts:13-41 | nothing while loading; the login URL with the encoded path (or '/'); the user's dashboard from '/auth'; the cross-dashboard moves; at most one redirect, the first rule winning |
| Redirects.UseAuthSettles | hooks/useAuth.ts:13-41 | with a session, the page `useAuth` sends the user to leaves them there |
| Redirects.Auth | app/components/providers/AuthProvider.tsx:7-32 | children are always returned; nothing while loading; '/auth/login' exactly without a session off '/auth/' pages; the cross-dashboard moves for students and teachers |
| Redirects.AuthLoginSettles | app/components/providers/AuthProvider.tsx:16-18 | on the login page, `Auth` pushes nothing |
| Redirects.SessionCheck | app/components/SessionCheck.tsx:12-34 | nothing while loading; '/auth/login' exactly without a session off '/auth/'; with a session on '/auth/', the user's dashboard |
| Redirects.SessionCheckSettles | app/components/SessionCheck.tsx:12-34 | `SessionCheck` never redirects twice |
| Redirects.StudentHomesDisagree | hooks/useAuth.ts:23-26 | a signed-in student on '/auth/login' is sent to '/student/dashboard' by the middleware and `SessionCheck`, but to '/dashboard' by `useAuth`, from where the middleware sends them on |
| Sessions.SelectorSessions | app/components/SessionSelector.tsx:12-17 | there are exactly four session labels |
| Sessions.FormSessions | app/components/CreateRoutineForm.tsx:27-33 | five options, "All" first |
| Sessions.LastTwoDigits | app/components/SessionSelector.tsx:13-16 | `slice(-2)` of a number of two or more digits is its value mod 100 in two digits |
| Sessions.SessionLabelParts | app/components/SessionSelector.tsx:13-16 | a label splits at '-' into the start year and the last two digits of the next year |
| Sessions.SessionLabelInjective | app/components/SessionSelector.tsx:13-16 | different start years give different labels |
| Sessions.SessionLabel | app/components/SessionSelector.tsx:13-16 | the label Y-yy of a start year; stated by SessionLabelParts and SessionLabelInjective |
| Sessions.SelectorSessionsFacts | app/components/SessionSelector.tsx:12-17 | label i starts with currentYear − 1 − i, and the labels are distinct |
| Sessions.SelectorOptionsFacts | app/components/SessionSelector.tsx:29-34 | the first option is the '' placeholder, followed by the sessions |
| Sessions.FormSessionsShift | app/components/CreateRoutineForm.tsx:27-33 | the form's sessions are the picker's sessions one year later |
| FileUtils.UploadPath | utils/fileUtils.ts:3-9 | the uploads directory lies inside the public directory |
| FileUtils.PublicUrl | utils/fileUtils.ts:11-14 | '/uploads/' followed by the file name |
| FileUtils.PublicUrlPasses | utils/fileUtils.ts:11-14 | a public upload URL is covered by the matcher, so a request without a token is sent to sign in; for a signed-in request the '/uploads/' rule lets it through before any redirect rule (middeware.ts:7-9, 35-49) |
| FileUtils.NormalizeFilePath | utils/fileUtils.ts:16-18 | same length, no backslash left, every other character unchanged |
| FileUtils.NormalizeIdempotent | utils/fileUtils.ts:17 | normalising twice is normalising once |
| FileUtils.NormalizeKeepsPosix | utils/fileUtils.ts:17 | a path without backslashes is unchanged |

## Left out

- **Floating point.** All arithmetic is on exact reals and unbounded integers. IEEE rounding, `toFixed` and `toLocaleString` display formatting are not modelled.
- **Trigonometry.** The cosine-based metres-per-degree factors, with π and the Earth radius, are parameters `latFactor`/`lngFactor`: functions of the mean latitude. The 8-point GPS sample's area therefore has no value in the model.
- **GpsParse.ParseGpsCoordinate: seconds groups.** A seconds group whose numeric prefix is empty (it starts with '.' not followed by a digit) fails the parse. JavaScript's `parseFloat` would instead give NaN and a NaN coordinate.
- **GpsParse.ParseGpsCoordinate: `parseFloat` prefix.** `parseFloat` is modelled as digits, optionally followed by '.' and digits. It reads the longest such prefix of the group.
- **JavaScript `parseInt` and `Number`.** These are modelled on decimal digits with optional leading white space and sign. Hexadecimal, exponents, fractions and Unicode white space are not modelled.
- **Regular expressions.** Only the one DMS pattern is modelled, as a leftmost search with maximal runs. For this pattern that is exactly what backtracking finds.
- **AreaCalculator.Calculator.UpdateCoordinate: aliasing.** The source writes into the point object shared with the previous state. The model treats points as values, so that aliasing is not captured. Its `requires index < |coordinates|` reflects that the source throws on a missing point.
- **AreaCalculator.Calculator.UpdateGpsCoordinate: out-of-range index.** It requires an existing index. Writing past the end of a JavaScript array would leave holes; the UI only edits existing rows.
- **RoutineTable.Table.ClassChange / RoutineTable.Table.TimeChange: aliasing.** The source mutates row objects shared with the previous state and with `initialData`. The model uses row values. Both require an existing row index, as the source dereferences it.
- **RoutineForm.ClockText: times before 100:00.** It is defined only for times before 100:00.
- **RoutineForm.SlotStartingAt: hour < 99.** It requires hour < 99. The loops only use hours 8 to 17.
- **Sorting.** `Array.prototype.sort` is modelled as a stable insertion sort on sequences, not as an in-place sort. A comparator that yields NaN is not modelled. Semesters are taken as already-parsed integers.
- **ResultTransform: `parseFloat` of the gpa.** The gpa is kept as the text handed to `parseFloat`; the number it parses to is not modelled.
- **ContentApi.Post: form values.** Form values are texts or absent; `File` values are not modelled. `JSON.parse` is the parameter `parse`. The database `create` call and the 500 path are not modelled.
- **ContentApi.List: database query.** The database `find`/`sort`/`limit` is modelled by `Find` over a sequence of stored records. The order among records with equal `createdAt` is their stored order.
- **ProfileApi: stored records.** A missing or falsy stored field is represented by '' (or 0 for the regulation). `findOne`/`findOneAndUpdate` are lookups and updates of a map keyed by student id. The 500 paths are not modelled.
- **Storage.UploadFile: injected values.** `Date.now()`, `Math.random()` and `path.extname`/`basename` are supplied as a `Naming` value.
- **Storage: cloud SDK.** The SDK calls (`save`, `makePublic`, `getSignedUrl`, deletion, metadata) and their failures are not modelled. `Promise.all` is a sequential map.
- **Storage.Download: URL handling.** `decodeURIComponent` is applied before the route is called, and `originalName` is unused. The signed URL is represented by the path it is made for. The 500 path is not modelled.
- **Text.Trim: Unicode white space.** `trim` and `parseInt` skip the six ASCII white-space characters only; Unicode white space such as U+00A0, U+FEFF and U+2028 is not stripped.
- **Uploads.FileError: whole megabytes.** `maxSize` is a natural number of MiB; the source types it as a `number` (app/components/FileUpload.tsx:8), so a fractional limit is not modelled. Its one caller, app/components/CreateContentForm.tsx:250, passes 10, which is also the default.
- **Uploads: lower-casing.** `toLowerCase` is ASCII-only.
- **Uploads: `handleFiles`.** The catch branch is not modelled; only `onFileSelect` could throw there.
- **Uploads: drag events.** Drag-and-drop events are UI.
- **Uploads.ImagePicker.HandleImageUpload: network.** The network response is the parameter `response`.
- **Redirects: effects.** `router.push` and `NextResponse` are modelled as returned values.
- **Redirects.EdgeGate: file name.** The edge rules are those of middeware.ts as written. Next.js loads only `middleware.ts`, so the model states what these rules decide, not what the deployed portal enforces.
- **Redirects: next-auth.** The next-auth sign-in page is represented by `SignInRequired`. `encodeURIComponent` is the parameter `encode`.
- **FileUtils.UploadPath: path joining.** `path.join` is plain concatenation with '/', without its normalisation. `process.cwd()` is a parameter.
- **Sessions: current year.** `new Date().getFullYear()` is a parameter. The label lemmas assume years of at least two digits.
- **Infrastructure.** Network services, the result proxy routes, MongoDB models, password handling, next-auth configuration and the React rendering are not part of this model.
