# Style Extractor core, modelled in Dafny

Style Extractor takes a screenshot of a user interface and recovers two things from it. The first is design tokens: colours, typography, spacing, radii and shadows. The second is the UI components drawn in it. It lets a user edit the tokens, checks the detections against hand-written fixtures, and exports the result as JSON, CSS custom properties and a Tailwind `theme.extend` block.

This project models the logic of that pipeline on pixel buffers and plain data, and proves what each step promises:

* **The edge-based detector** (`EdgeDetection`, `RegionAnalysis`). It has these steps:
  * a Sobel edge map;
  * a stack-driven 4-connected flood fill that turns edge pixels into boxes;
  * per-box measurements: corner radius, padding, border, an opaque-colour histogram with palette, brightness and hover/active states;
  * a first-match type classifier.
* **The grid-scan detector** (`ComponentsSlice`). It has these steps:
  * seeds on a 10-pixel grid;
  * runs that grow along the seed row and column while colours stay similar, with the covered boxes marked visited;
  * sampled dominant colour and palette;
  * its own classifier and confidence score;
  * the aggregate summary (type counts, mean size, mean confidence);
  * the component reducers.
* **Fixture validation** (`Validation`). It covers:
  * matching expected components to detected ones;
  * number, colour and text comparison under tolerances;
  * pass/fail counts and the accuracy percentage;
  * the three fixtures themselves.
* **The Redux state slices**, each a class whose methods are the reducers:
  * test results and mean accuracy (`TestingSlice`);
  * tolerance precedence (`ToleranceSlice`);
  * edited styles and semantic names (`StylesSlice`);
  * the image list (`ImageSlice`).
* **The exporter** (`JsonExport`): CSS variable names and values, the Tailwind block, and the export document.

Shared helpers stand for the JavaScript built-ins the code relies on:

* `Text`: decimal rendering, `toLowerCase`, `\s`, `split`.
* `Colors`: the `rgb(r,g,b)` text and its regular expression.
* `Values`: JavaScript values and objects as insertion-ordered dictionaries, `||`, `?.` and the JSON round trip.
* `Raster`: RGBA byte buffers.
* `JsMath`: `Math.round`.
* `Sorting`: `Array.prototype.sort` with a key comparator, as a stable insertion sort.
* `Tally`: `Map` counting in insertion order.

Pixel buffers are `seq<byte>` with an explicit width and height. The edge map and the `visited` flags are arrays updated in place, as in the source.

Two behaviours of the code are easy to misread, and the model keeps both as written:

* **A 200×100 region with text.** The edge detector's button rule needs an area below 15000 (`src/utils/componentDetection.js:159-161`), so it answers `unknown`. The grid-scan rules answer `card`.
* **The grid scan's dominant colour.** `extractDominantColor` samples every pixel without an alpha test (`src/features/components/componentsSlice.js:222-238`), and the model does the same. Only the edge detector's `analyzeRegionColors` counts opaque pixels alone.

## Model

| member | source | states |
|---|---|---|
| Text.DigitsValueOfNatToString | src/utils/componentDetection.js:287 | reading back the decimal text of a colour channel gives the channel |
| Text.CollapseSpacesHasNoSpace | src/utils/jsonExport.js:31 | no whitespace is left after `replace(/\s+/g, '-')` |
| Text.CollapseSpacesIdentity | src/utils/jsonExport.js:31 | a name without whitespace is left unchanged by the replacement |
| Text.CollapseSpacesIdempotent | src/utils/jsonExport.js:31 | replacing twice is the same as replacing once |
| Text.LowerIsLowerCase | src/utils/jsonExport.js:31 | `toLowerCase` leaves no capital letters and fixes lowercase text |
| Text.SplitJoin | src/utils/testCases.js:251 | `split('.')` loses nothing: the parts joined with `.` give the path back, and no part holds a dot |
| Colors.FindRgbLeftmost | src/utils/testCases.js:238 | the unanchored `rgb\((\d+),(\d+),(\d+)\)` search returns the match at the leftmost matching position, and none only when no position matches |
| Colors.RgbStringParses | src/utils/componentDetection.js:287 | the colour key `rgb(${r},${g},${b})` parses back to exactly `(r,g,b)` |
| Colors.RgbStringInjective | src/utils/componentDetection.js:287-288 | distinct colours get distinct count keys |
| Values.LookupStore | src/features/testing/testingSlice.js:59 | after `o[k] = v`, reading `k` gives `v` and every other key reads as before |
| Values.StoreShape | src/features/testing/testingSlice.js:59 | assignment adds the key only when it is new, at the end, and keeps keys distinct |
| Values.LookupStoreAll | src/features/testing/testingSlice.js:74-76 | after a series of assignments, each key holds the last value written to it, or its old value if none was |
| Values.LookupStoreIn | src/features/styles/toleranceSlice.js:24-27 | the two-level `if (!o[id]) o[id] = {}; o[id][k] = v` sets exactly `o[id][k]` |
| Values.OrEmpty | src/utils/jsonExport.js:42-47 | `x \|\| {}` is always truthy and is `x` whenever `x` is truthy |
| Values.JsonCloneIdentity | src/features/styles/stylesSlice.js:69 | the JSON round trip of a value without `undefined` is an equal copy |
| Values.JsonCloneHasNoUndef | src/features/styles/stylesSlice.js:69 | the round trip leaves no `undefined` anywhere |
| Values.JsonCloneIdempotent | src/features/styles/stylesSlice.js:69 | a second round trip changes nothing |
| JsMath.Round | src/features/components/componentsSlice.js:327-328 | `Math.round(x)` is the integer `n` with `n − 0.5 ≤ x < n + 0.5`, so halves round up |
| JsMath.RoundBetween | src/utils/componentDetection.js:250 | rounding a value between two integers stays between them |
| Sorting.SortDescProps | src/utils/componentDetection.js:64 | sorting by a key comparator gives a non-increasing permutation of the input |
| Tally.HistogramProps | src/utils/componentDetection.js:279-290 | the `Map` counts are each colour's number of occurrences, keys are exactly the colours seen and distinct, and counts sum to the number counted |
| Tally.TopProps | src/utils/componentDetection.js:292-298 | the first `k` sorted entries are distinct seen colours with their true counts, in non-increasing order, and any colour left out has a count no greater than the last one kept |
| Tally.TopTextsRanked | src/features/components/componentsSlice.js:279-282 | the palette texts are ranked by count, and an omitted colour never outnumbers the last entry |
| EdgeDetection.EdgeAt | src/utils/componentDetection.js:19-44 | every edge-map entry is 0 or 255, and the one-pixel frame is always 0 |
| EdgeDetection.EdgeThreshold | src/utils/componentDetection.js:34-42 | `sqrt(px²+py²) > 50` on grey sums divided by 3 is the integer test `gx²+gy² > 22500` on the unscaled sums |
| EdgeDetection.EdgeAtInterior | src/utils/componentDetection.js:23-42 | an interior pixel is 255 exactly when its Sobel magnitude exceeds the threshold |
| EdgeDetection.DetectEdges | src/utils/componentDetection.js:18-47 | the returned array is a fresh `width×height` map equal to the edge function at every pixel |
| EdgeDetection.FloodFill | src/utils/componentDetection.js:67-113 | only unvisited edge pixels get marked, and none is unmarked; `pixelCount` is the number newly marked; the start is marked when it is an unvisited edge pixel; the box lies inside the image and is the tight min/max box of the marked pixels and the start: it holds each of them and each of its four sides is reached by one |
| EdgeDetection.InUnion | src/utils/componentDetection.js:53-62 | a position is in the union of the fills exactly when some fill marked it |
| EdgeDetection.KeptAreKeptBlobs | src/utils/componentDetection.js:57-59 | every blob the `width > 20 && height > 20` filter keeps is inside the image and holds a pixel |
| EdgeDetection.ScannedFill | src/utils/componentDetection.js:55-60 | a flood fill from the next unvisited edge pixel in scan order, marking only unvisited edge pixels, extends the scan: fills stay disjoint, in seed order, and exactly the visited pixels |
| EdgeDetection.VisitPixel | src/utils/componentDetection.js:54-62 | one step of the row-major scan keeps the fills a partition of the edge pixels seen so far and the kept list the filter of the fills |
| EdgeDetection.FindRectangularRegions | src/utils/componentDetection.js:49-65 | the scan's flood fills, in order, partition the edge pixels: pairwise disjoint, seeded in increasing position, each seeded at its first pixel, counted, and tightly boxed inside the image, and together exactly the pixels equal to 255; the result is the fills' blobs wider and taller than 20, in scan order, sorted by non-increasing area; every box in it is inside the image and holds a pixel |
| RegionAnalysis.CornerRadiusFirstHit | src/utils/componentDetection.js:253-272 | the corner radius is 0 or the first `r` up to `min(20, w/4, h/4)` whose diagonal pixel is opaque, with no hit before it |
| RegionAnalysis.MeasureCornerRadius | src/utils/componentDetection.js:253-272 | the scan loop computes that first-hit radius |
| RegionAnalysis.MeanRadiusBounds | src/utils/componentDetection.js:240-250 | the rounded mean of the nonzero corner readings lies in [0,20] and is positive exactly when some reading is |
| RegionAnalysis.DetectBorderRadius | src/utils/componentDetection.js:230-251 | the result is that mean over the four corners, hence within [0,20] |
| RegionAnalysis.MeasurePadding | src/utils/componentDetection.js:324-370 | `top` is the first row with an opaque pixel and `left` the first such column (0 when none); `right` and `bottom` equal `top` |
| RegionAnalysis.DetectBorder | src/utils/componentDetection.js:383-415 | a solid one-pixel border in the first pixel's colour exactly when every top-row pixel is within 10 per channel of the first; otherwise none |
| RegionAnalysis.OpaqueColorsMembers | src/utils/componentDetection.js:279-290 | a colour is counted exactly when some pixel has that colour and alpha above 128 |
| RegionAnalysis.AnalyzeRegionColors | src/utils/componentDetection.js:275-300 | the counting loop produces the summary of the opaque pixels' colours |
| RegionAnalysis.PaletteProps | src/utils/componentDetection.js:292-298 | the palette holds at most 5 distinct seen colours in non-increasing count order, and a colour left out has no more pixels than the fifth |
| RegionAnalysis.DominantProps | src/utils/componentDetection.js:296-297 | the dominant colour is the palette's first and is as frequent as any, or white when nothing is opaque |
| RegionAnalysis.BrightnessProps | src/utils/componentDetection.js:302-308 | brightness is the 0.299/0.587/0.114 luma of the parsed colour, 128 when nothing parses, within [0,255] for byte colours, and a grey's own level |
| RegionAnalysis.AdjustChannel | src/utils/componentDetection.js:316-320 | an adjusted channel is never above 255 |
| RegionAnalysis.AdjustChannelDirection | src/utils/componentDetection.js:316-320 | a negative factor never brightens a channel, a positive one never darkens a byte channel, and 0 keeps it |
| RegionAnalysis.AdjustBrightnessProps | src/utils/componentDetection.js:310-321 | an unparseable colour comes back unchanged; otherwise the result parses to a byte colour that is no brighter (factor ≤ 0) or no darker (factor ≥ 0) per channel |
| RegionAnalysis.StatesProps | src/utils/componentDetection.js:182-206 | the default state is the dominant colour; hover brightness is `b−25` above 128 and `b+25` otherwise; active brightness is `b−50` from 50 up and 0 below, never negative and never above `b`; the hover and active colours darken or lighten accordingly |
| RegionAnalysis.ShadowIgnoresInput | src/utils/componentDetection.js:372-381 | the shadow estimate is the same constant for every region |
| RegionAnalysis.MeasureComponentProperties | src/utils/componentDetection.js:208-228 | the measurements carry the box size, the mean corner radius (in [0,20]), the padding with `top` the first row and `left` the first column holding an opaque pixel, the constant shadow, and the border exactly when the top row is uniform, in the first pixel's colour |
| RegionAnalysis.ClassifyComponentType | src/utils/componentDetection.js:155-180 | the type is the first rule that holds, in the order button, card, input, nav-item, else `unknown`, each answer with both directions |
| RegionAnalysis.AnalyzeComponentRegion | src/utils/componentDetection.js:126-153 | the component carries its box, text flag and id, the opaque-colour summary, all of `measureComponentProperties`'s measurements of the box's buffer, the classifier's type for them and the derived states |
| RegionAnalysis.ClassifyComponents | src/utils/componentDetection.js:115-124 | one component per box, in box order, each the full analysis of that box's buffer with its text flag and id |
| RegionAnalysis.AnalyzedAppend | src/utils/componentDetection.js:118-121 | pushing the analysis of the next box keeps the list the analyses of the boxes so far |
| ComponentsSlice.SimilarityProps | src/features/components/componentsSlice.js:179-185 | colours are similar exactly when `\|Δr\|+\|Δg\|+\|Δb\| ≤ 3·threshold`; the test is reflexive and symmetric |
| ComponentsSlice.RowRunFromProps | src/features/components/componentsSlice.js:125-139 | the width grows along the seed row through similar pixels and stops at the first dissimilar one or at the cap |
| ComponentsSlice.ColumnRunFromProps | src/features/components/componentsSlice.js:142-156 | the height grows along the seed column the same way |
| ComponentsSlice.MeasureRowRun | src/features/components/componentsSlice.js:125-139 | the scanning loop along the seed row returns exactly the width the run definition gives |
| ComponentsSlice.MeasureColumnRun | src/features/components/componentsSlice.js:142-156 | the scanning loop down the seed column returns exactly the height the run definition gives |
| ComponentsSlice.RunBounds | src/features/components/componentsSlice.js:125-156 | both runs are at least 1 and at most `min(200, size − start)` |
| ComponentsSlice.DetectRectangularRegion | src/features/components/componentsSlice.js:102-177 | a region is returned exactly when the seed alpha is at least 128 and both runs reach 20; it starts at the seed with the two runs as size; exactly its pixels become visited, and a rejected seed changes nothing |
| ComponentsSlice.MarkBox | src/features/components/componentsSlice.js:158-166 | the marking loop sets every pixel of the box and no other |
| ComponentsSlice.CoversAfterDetect | src/features/components/componentsSlice.js:158-166 | marks are never cleared, so every found box stays covered |
| ComponentsSlice.SeedOutside | src/features/components/componentsSlice.js:80-86 | an unvisited seed lies outside every box found so far |
| ComponentsSlice.VisitSeed | src/features/components/componentsSlice.js:80-95 | one seed of the grid: it appends the seed's region (the row and column runs from it) or nothing, and afterwards every growing seed scanned so far lies in a found box, each found box is a grown grid seed, and `visited` covers exactly found boxes |
| ComponentsSlice.ScanRow | src/features/components/componentsSlice.js:79-96 | one grid row of seeds extends the region list by those seeds' regions only, and keeps every growing seed of the rows scanned inside a found box |
| ComponentsSlice.InAnyBoxAppend | src/features/components/componentsSlice.js:92-94 | a pixel lies in one of the boxes after an append exactly when it lay in one before or lies in the new box |
| ComponentsSlice.FindComponentRegions | src/features/components/componentsSlice.js:72-100 | every region starts on a grid seed (multiples of 10, before the last 20 columns and rows) whose alpha is at least 128, and its width and height are the row and column runs from the seed, both at least 20; regions come in scan order, none starts inside an earlier one, and every such growing seed lies in some region |
| ComponentsSlice.GridScanUnique | src/features/components/componentsSlice.js:72-100 | those properties fix the region list: two lists that both have them are equal |
| ComponentsSlice.SamplesSound | src/features/components/componentsSlice.js:222-238 | every sampled colour is the colour of a pixel on the stride grid inside the sampling window |
| ComponentsSlice.SampleColors | src/features/components/componentsSlice.js:222-240 | the sampling loops count the samples in first-seen order |
| ComponentsSlice.DominantEntry | src/features/components/componentsSlice.js:242-252 | the scan for the maximum returns the first entry with the largest count, or grey when nothing was counted |
| ComponentsSlice.FirstMaxOfHistogram | src/features/components/componentsSlice.js:242-252 | that entry's colour is the most frequent sample and the first seen among ties |
| ComponentsSlice.MostFrequentFirstUnique | src/features/components/componentsSlice.js:242-252 | the most frequent, first-seen colour is unique |
| ComponentsSlice.ExtractDominantColor | src/features/components/componentsSlice.js:219-253 | the most frequent colour among stride-2 samples of the first 50×50, with no alpha filter, the first seen among ties, or `rgb(128,128,128)` when nothing is sampled |
| ComponentsSlice.ExtractColorPalette | src/features/components/componentsSlice.js:255-283 | the top three colours by count among stride-3 samples of the first 30×30 |
| ComponentsSlice.EstimateBorderRadius | src/features/components/componentsSlice.js:285-290 | 8 for boxes under 100×50, else 12 under 200×100, else 16 |
| ComponentsSlice.EstimateBorderRadiusMonotone | src/features/components/componentsSlice.js:285-290 | a larger box never gets a smaller radius |
| ComponentsSlice.CalculateRegionConfidence | src/features/components/componentsSlice.js:292-304 | the score is 0.5 plus 0.2, 0.2 and 0.1 for the three typical-shape tests; it lies in [0.5, 1.0], and is 1.0 exactly when all three hold and 0.5 exactly when none does |
| ComponentsSlice.ClassifyRegion | src/features/components/componentsSlice.js:187-217 | the type is the first rule that holds, in the order button, card, input, nav-item, else `container`, each answer with both directions |
| ComponentsSlice.ComponentIdInjective | src/features/components/componentsSlice.js:49 | ids `detected_<index>` of different positions differ |
| ComponentsSlice.DescribeAll | src/features/components/componentsSlice.js:47-68 | one component per region, in region order, each described from its own region and position |
| ComponentsSlice.ConfidentKeepsAll | src/features/components/componentsSlice.js:69 | when every confidence exceeds 0.3 the filter keeps the list as it is |
| ComponentsSlice.AnalyzeImageForComponents | src/features/components/componentsSlice.js:40-70 | the components describe a grid scan of the image one to one: id by position, box, type, radius, sampled colours, text flag and confidence |
| ComponentsSlice.ComponentIdsDistinct | src/features/components/componentsSlice.js:47-69 | the detected components have pairwise distinct ids |
| ComponentsSlice.CountsOfStep | src/features/components/componentsSlice.js:309-312 | `counts[k] = (counts[k] \|\| 0) + 1` counts one more `k` |
| ComponentsSlice.TypeCounts | src/features/components/componentsSlice.js:307-313 | each type maps to its number of components, the keys are exactly the types present, and the counts sum to the list length |
| ComponentsSlice.AverageSizeBetween | src/features/components/componentsSlice.js:315-330 | the rounded mean size of a non-empty list lies between the smallest and largest bound of its members |
| ComponentsSlice.AverageSize | src/features/components/componentsSlice.js:316 | an empty list has mean size 0×0 |
| ComponentsSlice.DetectionConfidence | src/features/components/componentsSlice.js:333 | an empty list has confidence 0 |
| ComponentsSlice.DetectionConfidenceBetween | src/features/components/componentsSlice.js:332-340 | with every score in [0.5, 1.0] the detection confidence is in [50, 100] |
| ComponentsSlice.AnalyzeComponents | src/features/components/componentsSlice.js:4-37 | the payload holds the grid-scan components, their count, type counts, mean size and mean confidence; for a non-empty list, sizes lie in [20,200] and confidence in [50,100] |
| ComponentsSlice.ComponentsState.constructor | src/features/components/componentsSlice.js:344-350 | the initial state is empty, idle and error-free |
| ComponentsSlice.ComponentsState.SelectComponent | src/features/components/componentsSlice.js:352-354 | only the selection changes |
| ComponentsSlice.ComponentsState.ClearComponents | src/features/components/componentsSlice.js:355-359 | components, selection and analysis are cleared, and the flags are kept |
| ComponentsSlice.ComponentsState.AnalyzePending | src/features/components/componentsSlice.js:363-366 | analysing starts and the error is cleared |
| ComponentsSlice.ComponentsState.AnalyzeFulfilled | src/features/components/componentsSlice.js:367-371 | the payload's components and analysis are stored and analysing stops |
| ComponentsSlice.ComponentsState.AnalyzeRejected | src/features/components/componentsSlice.js:372-375 | analysing stops and the message is stored |
| Validation.ParseTwoHexDigits | src/utils/testCases.js:232-234 | `parseInt` of two hex digits in base 16 is the byte they spell |
| Validation.ParseHexColor | src/utils/testCases.js:228-236 | `#RRGGBB` with six hex digits parses to its three bytes |
| Validation.ParseRgbColor | src/utils/testCases.js:238-245 | an `rgb(r,g,b)` text parses to its three numbers |
| Validation.SimilaritySqrtForm | src/utils/testCases.js:215-225 | the squared comparison is equivalent to `(1 − d/√195075)·100 ≥ 100 − tol` |
| Validation.SimilarAtMaximum | src/utils/testCases.js:215-225 | colours at maximal distance are similar only from tolerance 100 up |
| Validation.ValidateProperty | src/utils/testCases.js:190-207 | numbers pass iff `100·\|e−a\| ≤ tol·e` for positive `e`, and never for `e = 0`; non-colour strings compare case-insensitively; mismatched kinds compare with `===` |
| Validation.CalculateDeviation | src/utils/testCases.js:254-259 | NaN or infinite exactly for an expected 0, non-negative for a positive expected number, and 0 or 100 for non-numbers |
| Validation.NumericExamples | src/utils/testCases.js:190-194 | 100 against 108 passes at tolerance 10, 100 against 112 fails, and 12 against 10 fails with deviation 50/3 |
| Validation.IdenticalColors | src/utils/testCases.js:209-226 | a parseable colour matches itself exactly when the tolerance is non-negative |
| Validation.BlackWhite | src/utils/testCases.js:209-226 | black against white passes only with tolerance at least 100 |
| Validation.ColorFallback | src/utils/testCases.js:213 | when either colour does not parse, the comparison is plain string equality |
| Validation.GetNestedPropertySteps | src/utils/testCases.js:250-252 | a dotless path is one property read, and a dotted path reads its first key and continues with the rest |
| Validation.FindMatchingFirst | src/utils/testCases.js:144-158 | the result is the first component of the same type within 50 pixels along each axis when bounds are given, and none only when none matches |
| Validation.SameMatchWithoutBounds | src/utils/testCases.js:144-158 | fixtures of one type without bounds match the same component, so matches are not consumed |
| Validation.ToleranceFor | src/utils/testCases.js:170 | `tolerances[p] \|\| 10` is never 0: the stored value when set and nonzero, else 10 |
| Validation.RecordsForStep | src/utils/testCases.js:174-180 | recording one more property keeps the records equal to the validations of the properties seen |
| Validation.ValidateComponentProperties | src/utils/testCases.js:160-188 | one record per expected property with its value, its nested actual value, tolerance, verdict and deviation; the component passes exactly when every property does |
| Validation.AccuracyBounds | src/utils/testCases.js:138-139 | accuracy lies in [0,100], is 100 exactly when everything passed, and 0 exactly when nothing did |
| Validation.PassedCountBound | src/utils/testCases.js:122-126 | no more components pass than there are details |
| Validation.DetailsAppend | src/utils/testCases.js:110-136 | one more expected component adds its detail in order and one more pass when it passed |
| Validation.ResultAccuracy | src/utils/testCases.js:101-142 | a test result's accuracy lies in [0,100] and is 100 exactly when there are expected components and none failed |
| Validation.ValidateTestCase | src/utils/testCases.js:101-142 | one detail per expected component in order, a `Component not detected` failure when none matches, `passed + failed` equal to the number expected, and accuracy `passed/total·100` or 0 |
| Validation.ButtonStatesShareMatch | src/utils/testCases.js:41-72 | the three button-state fixtures of the second test case all match the same detected component |
| Validation.TestCaseIdsDistinct | src/utils/testCases.js:2-99 | the three fixtures have distinct ids |
| TestingSlice.FindTestCaseFirst | src/features/testing/testingSlice.js:7 | `find` by id returns the first fixture with that id, and none only when no fixture has it |
| TestingSlice.FindsEveryFixture | src/features/testing/testingSlice.js:7 | every fixture is found by its own id |
| TestingSlice.RunTestCase | src/features/testing/testingSlice.js:4-15 | an unknown id fails with `Test case <id> not found`; a known one returns the id with that fixture's validation |
| TestingSlice.RunAllTestCases | src/features/testing/testingSlice.js:17-30 | one result per fixture in declaration order, each validating the components supplied for its id or none |
| TestingSlice.MeanAccuracyBounds | src/features/testing/testingSlice.js:64-67 | the mean of stored accuracies in [0,100] lies in [0,100] |
| TestingSlice.StoreKeepsPercentages | src/features/testing/testingSlice.js:59 | storing a result with accuracy in [0,100] keeps every stored accuracy in range |
| TestingSlice.StoreEach | src/features/testing/testingSlice.js:74-76 | the loop stores every payload entry in order |
| TestingSlice.RunAllStoresEveryCase | src/features/testing/testingSlice.js:73-76 | after a run-all payload, each fixture's id holds its own result |
| TestingSlice.TestingState.constructor | src/features/testing/testingSlice.js:34-41 | the fixtures, no results, accuracy 0, idle, and the total is the fixture count |
| TestingSlice.TestingState.ClearTestResults | src/features/testing/testingSlice.js:43-47 | results, accuracy and progress reset; fixtures and total kept |
| TestingSlice.TestingState.UpdateTestProgress | src/features/testing/testingSlice.js:48-50 | only the completed count changes |
| TestingSlice.TestingState.RunTestCasePending | src/features/testing/testingSlice.js:54-56 | only the running flag is set |
| TestingSlice.TestingState.RunTestCaseFulfilled | src/features/testing/testingSlice.js:57-69 | the result is stored under its id, overwriting; the completed count goes up by one even for a repeated id; overall accuracy is the mean of stored accuracies and stays in [0,100] |
| TestingSlice.TestingState.RunTestCaseRejected | src/features/testing/testingSlice.js:70-72 | only the running flag is cleared |
| TestingSlice.TestingState.RunAllTestCasesFulfilled | src/features/testing/testingSlice.js:73-87 | every result is stored in payload order, completed equals total, and overall accuracy is the mean |
| ToleranceSlice.InitialTolerances | src/features/styles/toleranceSlice.js:5-13 | with nothing set, colours get 15, spacing 20, border radius 25 and everything else 10 |
| ToleranceSlice.ComponentToleranceWins | src/features/styles/toleranceSlice.js:22-31 | a nonzero component tolerance takes precedence over category and global |
| ToleranceSlice.ComponentToleranceIsolated | src/features/styles/toleranceSlice.js:22-28 | setting one component property changes no other component's or property's tolerance |
| ToleranceSlice.CategoryToleranceApplies | src/features/styles/toleranceSlice.js:18-31 | without a component tolerance, a nonzero category tolerance applies |
| ToleranceSlice.GlobalToleranceApplies | src/features/styles/toleranceSlice.js:15-31 | with neither component nor category tolerance set, the global one applies |
| ToleranceSlice.CheckTolerance | src/features/styles/toleranceSlice.js:33-46 | the deviation is `\|x−e\|·100/e`, undefined (NaN or infinite) exactly for `e = 0`; valid exactly when it exists and is within tolerance; the inputs are kept |
| ToleranceSlice.CheckToleranceCrossMultiplied | src/features/styles/toleranceSlice.js:33-34 | for positive `e`, valid exactly when `\|x−e\|·100 ≤ tol·e` |
| ToleranceSlice.ToleranceState.constructor | src/features/styles/toleranceSlice.js:5-13 | the initial levels and empty component and result tables |
| ToleranceSlice.ToleranceState.SetGlobalTolerance | src/features/styles/toleranceSlice.js:15-17 | only `global` changes |
| ToleranceSlice.ToleranceState.SetCategoryTolerance | src/features/styles/toleranceSlice.js:18-21 | only that category's level changes |
| ToleranceSlice.ToleranceState.SetComponentTolerance | src/features/styles/toleranceSlice.js:22-28 | only `components[id][property]` is set, creating the entry when missing |
| ToleranceSlice.ToleranceState.ValidateTolerance | src/features/styles/toleranceSlice.js:29-47 | records the check under `validationResults[id][property]` with the effective tolerance, and leaves other entries alone |
| StylesSlice.ExtractedTokensFixed | src/features/styles/stylesSlice.js:13-26 | the shadow and radius tokens are the fixed constants whatever the image; the analysers' values pass through |
| StylesSlice.SemanticKeyInjective | src/features/styles/stylesSlice.js:49 | for dotless categories, `category.property` keys identify the pair |
| StylesSlice.WithStyleEffect | src/features/styles/stylesSlice.js:40-46 | the edited value reads back under the flat key; other categories and properties are unchanged |
| StylesSlice.StylesState.constructor | src/features/styles/stylesSlice.js:32-38 | empty styles and names, tolerance 10, idle |
| StylesSlice.StylesState.UpdateStyle | src/features/styles/stylesSlice.js:40-46 | the category is created when missing and the flat property key set; nothing else changes |
| StylesSlice.StylesState.UpdateSemanticName | src/features/styles/stylesSlice.js:47-51 | the name is stored under `category.property`, and nothing else changes |
| StylesSlice.StylesState.SetTolerance | src/features/styles/stylesSlice.js:52-54 | only the tolerance changes |
| StylesSlice.StylesState.ResetStyles | src/features/styles/stylesSlice.js:55-59 | styles and names are emptied; tolerance and flag kept |
| StylesSlice.StylesState.ExtractStylesPending | src/features/styles/stylesSlice.js:63-65 | only the extracting flag is set |
| StylesSlice.StylesState.ExtractStylesFulfilled | src/features/styles/stylesSlice.js:66-70 | extracted styles are the payload, and edited styles are its JSON copy: free of `undefined`, and equal to the payload when it has none |
| StylesSlice.StylesState.ExtractStylesRejected | src/features/styles/stylesSlice.js:71-73 | only the extracting flag is cleared |
| ImageSlice.RemoveIdMembers | src/features/images/imageSlice.js:47 | the filter keeps exactly the images whose id differs |
| ImageSlice.RemoveIdAppend | src/features/images/imageSlice.js:47 | the filter keeps the original order |
| ImageSlice.RemoveIdAbsent | src/features/images/imageSlice.js:47 | removing an absent id changes nothing |
| ImageSlice.RemoveIdIdempotent | src/features/images/imageSlice.js:47 | removing twice is removing once |
| ImageSlice.ImageState.constructor | src/features/images/imageSlice.js:36-41 | no images, no current image, idle, no error |
| ImageSlice.ImageState.SetCurrentImage | src/features/images/imageSlice.js:43-45 | only the current image changes |
| ImageSlice.ImageState.RemoveImage | src/features/images/imageSlice.js:46-51 | images with the id are dropped, and the current image is cleared exactly when it has that id |
| ImageSlice.ImageState.ProcessImagePending | src/features/images/imageSlice.js:55-58 | processing starts and the error is cleared |
| ImageSlice.ImageState.ProcessImageFulfilled | src/features/images/imageSlice.js:59-63 | the image is appended and made current, and processing stops |
| ImageSlice.ImageState.ProcessImageRejected | src/features/images/imageSlice.js:64-67 | processing stops and the message is stored |
| JsonExport.VariableKeyShape | src/utils/jsonExport.js:31 | every variable key starts with `--`, has no whitespace and no capital letter |
| JsonExport.VariableKeyOfNormalName | src/utils/jsonExport.js:31 | a lowercase name without whitespace becomes `--name` unchanged |
| JsonExport.VariableKeyIdempotent | src/utils/jsonExport.js:31 | normalising a normalised name changes nothing |
| JsonExport.AddCategory | src/utils/jsonExport.js:28-32 | the inner loop stores one variable per property of the category, in order |
| JsonExport.GenerateCssVariables | src/utils/jsonExport.js:24-36 | the variables are the (key, value) pairs of every category and property, assigned in order |
| JsonExport.CssVariablesContent | src/utils/jsonExport.js:27-35 | each key holds the value of the last pair with that key, and there are no more variables than pairs |
| JsonExport.TailwindConfigEntries | src/utils/jsonExport.js:38-51 | each `theme.extend` entry is the corresponding style value when truthy and `{}` otherwise |
| JsonExport.ExportData | src/utils/jsonExport.js:3-15 | the document carries the metadata, the three inputs, and CSS variables and Tailwind block built from the edited styles only |

## Left out

- Canvas and browser I/O (`getContext`, `getImageData`, image loading, `Blob`, `saveAs`) are not modelled. Pixel buffers are parameters, and the region buffer handed to the per-box analysis is a parameter with the box's size.
- OCR (`detectTextInRegion`) is not modelled: its answer is the `hasText` parameter.
- The random and clock-based ids and `new Date().toISOString()` are not modelled: the id and the timestamp are parameters.
- The analysers behind `extractStyles` (colour extraction, text detection, spacing analysis) are not modelled: their results are parameters of `StylesSlice.ExtractedTokens`. The thunk's default tolerance is not modelled either.
- Async thunk plumbing, Promises and Immer proxies are not modelled. Each reducer is a method on a state class, and each thunk body is a method returning its payload or error.
- The glue that runs `detectEdges`, `findRectangularRegions` and `classifyComponents` on one canvas is not modelled separately, because it only chains those three steps.
- The `catch` branch of `analyzeComponents` is not modelled, because no modelled step throws.
- IEEE double rounding is not modelled, because arithmetic is over exact reals:
  - `0.5 + 0.2 + 0.2 + 0.1` evaluates to `0.9999999999999999` in JavaScript, but is 1.0 here;
  - `Math.round` at the exact half-way points of IEEE sums is not claimed.
- NaN and infinite deviations are not modelled as numbers: they are written `None`.
- Case folding and `\s` cover ASCII letters and the listed whitespace code points only. Non-ASCII `toLowerCase` is not modelled.
- JavaScript objects keep insertion order. The engine's rule that integer-like keys enumerate first is not modelled.
- Object and array identity is not modelled: `===` between two objects is false, because fixtures never share references with detections.
- EdgeDetection.FloodFill: the contract does not state that the marked set is the whole 4-connected component of the start, only that it is sound, counted and tightly boxed.
- EdgeDetection.FindRectangularRegions: for the same reason the fills are proved to partition the edge pixels in scan order, but not to be its 4-connected components.
- ComponentsSlice.SampleColors: requires non-negative box coordinates, which the grid scan guarantees.
- ComponentsSlice.ComponentsState.SelectComponent: the payload is a grid-detected component or none. The source accepts any value.
- ToleranceSlice.ToleranceState.SetCategoryTolerance: requires the category not to be `components` or `validationResults`. In the source, writing those keys would replace the tables with a number.
- ToleranceSlice.EffectiveTolerance: `state[property]` reads only the numeric levels. A property named `components` or `validationResults` would read a table in the source.
- StylesSlice.StylesState.UpdateStyle: for a category holding a truthy non-object, the model reports failure and changes nothing. JavaScript would throw on a primitive in strict mode, or add a key to an array.
- JsonExport.EntriesOf: `Object.entries` of `null` or `undefined` throws in JavaScript. The model gives no entries.
- RegionAnalysis.DetectBorder: requires a width of at least 1, because the source reads pixel 0 of an empty buffer.
- RegionAnalysis.ClassifyComponentType: requires a positive height, because `width / height` is undefined otherwise.
- ComponentsSlice.ClassifyRegion: requires a positive height for the same reason.
- Validation.ValidateProperty: for a negative expected number the contract states nothing beyond the definition.
- The UI components, pages, store set-up and static image list are not part of this model.
