# Verified models of GnuCash's chart kernels, Guile bridges and SAX import

Dafny models, with proofs, of three groups of code in the repository:

* the algorithms inside `borrowed/chartjs-2/Chart.js` that do not draw: the colour conversion router, the filler
  plugin's targets, the time scale's lookup table, the layout service, the mirror of the data array, the plugin
  cache, stacked bars, tick skipping and linear tick generation;
* the Guile bridges `gnc-kvp-guile.cpp` and `gnc-engine-guile.cpp`: printers that turn KVP values and queries into
  Scheme data and readers that turn them back;
* the SAX content handler of `contrib/gnuc2ooo.py`.

`dafny verify dfyconfig.toml` verifies everything.

## Modules

| module | what it holds |
|---|---|
| `ColorRouter` | breadth-first search over the conversion table, conversions composed along parent links |
| `FillTargets` | decoding of fills, chains of hidden datasets, resolution in place |
| `TimeTable` | the compressed time table, its binary search and its interpolation |
| `Layout` | the space account, placement, and the resulting geometry |
| `DataMirror` | the observed data array and the controllers' shadow arrays |
| `PluginCache` | the plugin list and the descriptor cache of each chart |
| `BarStacks` | the sums or values behind a scale and the bars that have to fit it |
| `TickSkip` | factors, spacing, the skip passes and the selection of ticks |
| `TickCount`, `TickCover` | how many ticks the selection leaves, and how far apart they stand |
| `LinearTicks`, `TickSpacing` | nice numbers, the finest spacing, decimal places, the ladder of ticks, the user's limits, step size and precision, and the range |
| `Scheme` | Scheme data, exact rationals in lowest terms |
| `KvpBridge`, `KvpForms` | KVP values to Scheme and back, and which datum stands for a value |
| `QueryAlgebra`, `QueryTerms`, `QueryTermsV1`, `QueryFolds`, `QueryBridge` | disjunctive normal forms and their meaning, single terms of both versions, the folds over nested lists, whole queries |
| `QueryForms`, `QueryLabels` | what terms demand that are written out as lists, and what labelled entries set |
| `Histories` | runs and traces of a state machine |
| `SaxImport`, `SaxColumns` | the handler object, its specification and what holds over its runs; which text becomes which column |
| `Rounding`, `Wrappers` | JavaScript's rounding on exact reals; optional values |

Objects that the source updates in place are classes (layout boxes and the chart area, controllers, the data array,
fill sources, the plugin service, the SAX handler); loops are loops; each method is tied by its postcondition to a
specification about which the lemmas speak.

## Assumptions of the model

* JavaScript numbers and C doubles are exact reals; integer widths of the C++ code are explicit
  (`Int32`, `Int64`, `InInt64`). A double is a real or one of the values that are not numbers.
* `floor(log10 x)` is the k with 10^k <= x < 10^(k + 1).
* What boxes answer when they measure themselves, what a conversion does to a colour, which strings are GUIDs, which
  regular expressions compile, how an exact number is rounded to a double, which characters `rstrip` removes and what
  a fraction in a GnuCash file is worth are parameters. Of GUIDs only one thing is assumed (`Scheme.Lawful`): their
  text has 32 characters and parses back to them.
* A wrong type given to a Scheme conversion, an access outside a list, and memory left undefined are one outcome,
  `Fault`. A null result is `Skip`.
* The meaning of a query is given by a valuation that says which predicates a record satisfies at which path.

## Where the code differs from its own words

* `updateDims` is documented to return true if the chart area changed (Chart.js:7100). It compares values it has just
  made equal, so with numbers it never does (`Layout.UpdateDims`), and the second fit in `fitBoxes` is never reached.
* Elements do not follow every `splice`: `splice(-1, 1, x)` on two or more values puts the new element one place too
  early (`DataMirror.ReplaceLastUnsafe`). They follow exactly the calls that pass the check `DataMirror.SafeCall` on
  start, count, number of items and length (`DataMirror.SafeIff`).
* The selection of ticks reads the tick at a fraction, and so fails, when the average distance of uneven majors is a
  fraction: twelve ticks with majors at 5, 7 and 10 and a limit of 11 (`TickSkip.FractionExample`). It does so exactly
  when two or more majors are within the limit and the first one, less their average distance, is a fraction above
  zero (`TickSkip.SelectionFailsIff`).
* The time table drops a whole-millisecond point that is half a millisecond past the middle of its neighbours and then
  misplaces it (`TimeTable.LatePointMisplaced`); items are placed evenly exactly when no item is like that
  (`TimeTable.WholeItemsIff`).
* The limit of ticks is not kept by the selection if majors within the limit stand unevenly: besides the limit and one
  more there can be one tick for each distance between neighbouring majors that is shorter than the spacing
  (`TickCount.SelectionBound`). Of nine ticks with majors at 0, 1, 2 and 8 six remain, with a limit of 4
  (`TickCount.CrowdedMajors`).
* With at most two ticks allowed the linear scale can generate three (`LinearTicks.TwoTicksExceeded`). It keeps to two
  exactly when no multiple of the final spacing lies strictly inside the range. Where a step size takes a limit of the
  user, multiples near that limit do not count; where it takes both, there are always two (`LinearTicks.TwoTicks`,
  `LinearTicks.TwoTicksKept`). With at least three allowed it keeps the limit (`LinearTicks.LadderLength`,
  `LinearTicks.TicksWithin`).
* The ticks of a linear scale need not increase: from 90 to 250 in steps of 100 they are 90, 190, 290 and 250
  (`LinearTicks.HundredsPass`). They increase exactly unless a step size takes the user's minimum and the climb from
  there lands past the last tick before it ends (`LinearTicks.IncreasingIff`).
* A step size is meant to be used from the user's minimum to the maximum if that gives an evenly spaced scale
  (Chart.js:12724). From 0.5 to 2.5 in steps of 1 it is not (`LinearTicks.HalfStepsUneven`): besides the even division
  it takes a minimum that is almost a multiple of the spacing (`LinearTicks.EvenIff`).
* Without stacks, and unless the scale is told to begin at zero, bars stick out of the limits when all values lie on
  one side of zero (`BarStacks.BarsFitIff`).
* An amount with a negative denominator can overflow when it is read back (`KvpBridge.NegativeDenominatorOverflows`);
  `KvpBridge.AmountOverflowsIff` says when.
* `xaccQueryAddDateMatchTT` documents that without bounds all transactions match. A version-1 date term without bounds
  adds nothing, and adds nothing either when its sense is false (`QueryTermsV1.DateMeaning`,
  `QueryTermsV1.TermMeaningV1`).
* Template transactions are recognised by text that arrives right inside the templates element. If no text arrives
  there, their rows are written like others (`SaxImport.TemplateRows`).

## Model

| member | source | states |
|---|---|---|
| ColorRouter.DeriveBFS | borrowed/chartjs-2/Chart.js:1089-1112 | distances are the true minimum edge counts, -1 exactly for unreachable models; every reached model but the source hangs on a parent one step nearer with an edge to it |
| ColorRouter.ScanAdjacents | borrowed/chartjs-2/Chart.js:1096-1108 | scanning the neighbours of the dequeued model keeps the tree, the queue ordered by distance, and settles that model |
| ColorRouter.Discover | borrowed/chartjs-2/Chart.js:1099-1106 | hanging a new model on the current one and queueing it keeps the scan's invariant |
| ColorRouter.TreeWalk | borrowed/chartjs-2/Chart.js:1114-1133 | in a parent tree the walk up from a reached model is a walk from the source with exactly `distance` edges |
| ColorRouter.NoShortcut | borrowed/chartjs-2/Chart.js:1089-1112 | once all reached models are settled no walk is shorter than the recorded distance, and everything a walk reaches is reached |
| ColorRouter.TrueDistances | borrowed/chartjs-2/Chart.js:1089-1112 | the distances of a settled tree are the graph's distances, for reachable and unreachable models alike |
| ColorRouter.WrapConversion | borrowed/chartjs-2/Chart.js:1120-1133 | the path starts at the source, follows edges, ends at the target and has distance + 1 models; the function is the left-to-right composition of the conversions along it |
| ColorRouter.AlongCarries | borrowed/chartjs-2/Chart.js:1114-1133 | the composed function carries a colour from model to model along the path, at each model applying the direct conversion to the colour at the model before |
| ColorRouter.Route | borrowed/chartjs-2/Chart.js:1135-1153 | exactly the reachable models other than the source get a conversion, each along a shortest path |
| FillTargets.DecodeFill | borrowed/chartjs-2/Chart.js:14818-14865 | a fill is decoded to a dataset exactly when it is a whole number, counted from the line itself after a sign, that names another dataset in range; to each boundary exactly for its two names, and to the origin for true or for a background; to nothing otherwise |
| FillTargets.NumberFills | borrowed/chartjs-2/Chart.js:14829-14845 | numbers and unsigned texts name a dataset by its index, texts with a sign by their distance from the line |
| FillTargets.ResolveTarget | borrowed/chartjs-2/Chart.js:14947-14976 | the walk ends; its result is the end of the fill chain through hidden sources: the first visible dataset or boundary, or nothing for a missing dataset, a cycle or a way back to the start |
| FillTargets.TargetUnique | borrowed/chartjs-2/Chart.js:14947-14976 | the chain's end is unique, so the specification fixes the result |
| FillTargets.TargetDrawable | borrowed/chartjs-2/Chart.js:14947-14976 | a dataset target exists, is visible and is another dataset |
| FillTargets.CycleIsEndless | borrowed/chartjs-2/Chart.js:14955-14973 | a chain that returns to an earlier fill has no target |
| FillTargets.ReplacedAlike | borrowed/chartjs-2/Chart.js:15106-15115 | the chains through a hidden source end alike whether or not its fill was already replaced |
| FillTargets.OrderIndependent | borrowed/chartjs-2/Chart.js:15106-15115 | a target found among partly resolved sources is the target among the untouched ones |
| FillTargets.DecodeSources | borrowed/chartjs-2/Chart.js:15088-15104 | the sources hold the decoded fills of the line datasets, each its own object |
| FillTargets.ResolveSources | borrowed/chartjs-2/Chart.js:15106-15115 | overwriting fills one by one gives every source its target among the original fills |
| FillTargets.AfterDatasetsUpdate | borrowed/chartjs-2/Chart.js:15082-15116 | every line ends up with its target among the decoded fills, or with its own decoded fill if fills are not propagated |
| TimeTable.BuildLookupTable | borrowed/chartjs-2/Chart.js:14042-14075 | the table is the list of kept items with their positions; it increases in both columns for ascending timestamps |
| TimeTable.Lookup | borrowed/chartjs-2/Chart.js:14078-14102 | with the missing sides filled in as the interpolation does, the result is a segment that brackets the value, an outer one outside the table |
| TimeTable.Interpolate | borrowed/chartjs-2/Chart.js:14110-14122 | the value lies on the line through every bracketing segment |
| TimeTable.BracketsAgree | borrowed/chartjs-2/Chart.js:14110-14122 | whichever bracketing segment is found, the interpolated value is the same |
| TimeTable.RoundTrip | borrowed/chartjs-2/Chart.js:14110-14122 | time to position and back, or the other way round, is the identity on every increasing table of two entries or more, inside and outside its limits |
| TimeTable.ThinnedIncreasing | borrowed/chartjs-2/Chart.js:14063-14072 | the compressed table starts and ends at the limits and increases |
| TimeTable.GapIsSegment | borrowed/chartjs-2/Chart.js:14063-14072 | neighbouring kept items are exactly the segments of the compressed table |
| TimeTable.SameLine | borrowed/chartjs-2/Chart.js:14063-14072 | if drops are exact, the line over a gap is the line over every segment inside it |
| TimeTable.ThinnedAgrees | borrowed/chartjs-2/Chart.js:14063-14072 | if every dropped point is the exact midpoint of its neighbours, the compressed table gives every time the position the full table gives it |
| TimeTable.EvenlyPlacedIff | borrowed/chartjs-2/Chart.js:14063-14072 | all items i are placed at i / (n - 1) exactly when every dropped point is an exact midpoint |
| TimeTable.DroppedWhole | borrowed/chartjs-2/Chart.js:14068-14071 | for whole numbers a point is dropped exactly when 2 curr - prev - next is 0 or 1 |
| TimeTable.WholeItemsIff | borrowed/chartjs-2/Chart.js:14063-14072 | on whole milliseconds all items are placed evenly exactly when none is just past the middle of its neighbours |
| TimeTable.LatePointMisplaced | borrowed/chartjs-2/Chart.js:14068-14071 | of the milliseconds 0, 2 and 3 the middle one is not placed evenly |
| TimeTable.ItemsAscending | borrowed/chartjs-2/Chart.js:14051-14061 | the items are ascending, and exactly the limits and the timestamps between them |
| Layout.UpdateDims | borrowed/chartjs-2/Chart.js:7073-7104 | each side stays the padding plus the sizes counted there, the box is counted for its new size instead of its old one, the largest paddings include the box's, width and height are what the maxima leave over, and the result is false |
| Layout.WidestIsLargest | borrowed/chartjs-2/Chart.js:7085-7091 | the paddings gathered from boxes are on each side the largest of the user's and all answered ones, and one of these |
| Layout.TotalUpdate | borrowed/chartjs-2/Chart.js:7078-7083 | recounting one box changes the total of its side by the difference and no other total |
| Layout.FitBoxes | borrowed/chartjs-2/Chart.js:7136-7163 | fitting any boxes with any answers keeps the account balanced, leaves every box counted for the size it answered, and gathers the paddings that they answered |
| Layout.HandleMaxPadding | borrowed/chartjs-2/Chart.js:7106-7118 | paddings that stick out are added to their sides; then left + width + right and top + height + bottom are the outer sizes |
| Layout.PlaceBoxes | borrowed/chartjs-2/Chart.js:7165-7193 | every box gets the rectangle at the cursor, the cursor moves by its size, nothing else moves |
| Layout.PathTiles | borrowed/chartjs-2/Chart.js:7165-7193 | columns, then rows, tile the cursor's way without gaps |
| Layout.PathShaped | borrowed/chartjs-2/Chart.js:7165-7193 | a placement gives every box its answered extent, columns the height of the area, rows its width or, at full width, that of the padded canvas |
| Layout.PlaceAll | borrowed/chartjs-2/Chart.js:7365-7372 | left and top boxes tile up to the chart area, right and bottom boxes start at its far edges |
| Layout.Update | borrowed/chartjs-2/Chart.js:7295-7380 | for any sizes and paddings the boxes answer: every box keeps the extent it answered across its side and gets the chart area's or the canvas's along it; the four sides tile exactly up to the chart area's edges and stay on the padded canvas; each edge is at the user's padding plus the boxes there, or at the largest padding if that reaches further; and the sums fill the outer size |
| Layout.NoOverlap | borrowed/chartjs-2/Chart.js:7295-7380 | with non-negative sizes no two boxes overlap, nor a box and the chart area, and no box leaves the padded canvas on its side |
| DataMirror.SpliceFollowsIff | borrowed/chartjs-2/Chart.js:4113-4116 | survivors keep their element at their index after a splice exactly when the arguments are safe |
| DataMirror.BlockStays | borrowed/chartjs-2/Chart.js:4082-4086 | insertions that land inside a block leave everything around it in place |
| DataMirror.BlockBroken | borrowed/chartjs-2/Chart.js:4082-4086 | an insertion that lands outside displaces a survivor for good |
| DataMirror.NonNegativeStartSafe | borrowed/chartjs-2/Chart.js:4113-4116 | a splice with a count and a non-negative start is safe |
| DataMirror.ReplaceLastUnsafe | borrowed/chartjs-2/Chart.js:4113-4116 | splice(-1, 1, x) on two or more values is not |
| DataMirror.SafeIff | borrowed/chartjs-2/Chart.js:4113-4116 | a call is safe exactly when it has no arguments, or a start without a count behind which there is nothing, or a start that is not negative, or no items, or a negative start inside the values with no deletion and one item, or a start before all values that leaves few enough of them |
| DataMirror.SafeBlock | borrowed/chartjs-2/Chart.js:4113-4116 | between the survivors of a safe splice stand the new elements, each once |
| DataMirror.Controller.InsertElements | borrowed/chartjs-2/Chart.js:4082-4086 | one new element after the other is inserted at successive places |
| DataMirror.Controller.OnDataPush | borrowed/chartjs-2/Chart.js:4091-4094 | old elements stay, the pushed values get new ones at the end |
| DataMirror.Controller.OnDataPop | borrowed/chartjs-2/Chart.js:4099-4101 | the last element goes, the others stay |
| DataMirror.Controller.OnDataShift | borrowed/chartjs-2/Chart.js:4106-4108 | the first element goes, the others move up by one |
| DataMirror.Controller.OnDataSplice | borrowed/chartjs-2/Chart.js:4113-4116 | the elements follow the splice exactly when its arguments are safe; then new values have new elements |
| DataMirror.Controller.OnDataUnshift | borrowed/chartjs-2/Chart.js:4121-4123 | new elements come first, the others keep their order |
| DataMirror.Controller.ResyncElements | borrowed/chartjs-2/Chart.js:4065-4077 | from any state the lengths agree again, by cutting off or adding at the end |
| DataMirror.DataArray.Push | borrowed/chartjs-2/Chart.js:3581-3601 | with any number of listeners the data grow by the items, the result is the new length, and every controller stays aligned |
| DataMirror.DataArray.Pop | borrowed/chartjs-2/Chart.js:3581-3601 | the last value goes and is the result, nothing for no values; every controller stays aligned |
| DataMirror.DataArray.Shift | borrowed/chartjs-2/Chart.js:3581-3601 | the first value goes and is the result, nothing for no values; every controller stays aligned |
| DataMirror.DataArray.Unshift | borrowed/chartjs-2/Chart.js:3581-3601 | the items come first, the result is the new length, and every controller stays aligned |
| DataMirror.DataArray.SpliceData | borrowed/chartjs-2/Chart.js:3581-3601 | the result is the deleted values; every controller follows a safe splice, and none an unsafe one |
| DataMirror.DataArray.ResyncAll | borrowed/chartjs-2/Chart.js:3800-3823 | realigns all controllers whatever they missed |
| PluginCache.DescribesEnabled | borrowed/chartjs-2/Chart.js:8057-8077 | exactly the plugins that are not disabled are described, with the given options, with the defaults for their id if they are just switched on, and else with none |
| PluginCache.DescribesInOrder | borrowed/chartjs-2/Chart.js:8057-8077 | in the order of first occurrence, hence each once |
| PluginCache.PluginService.Register | borrowed/chartjs-2/Chart.js:7957-7966 | new plugins are appended once, in the order of their first occurrence, the id grows, and every chart's cache counts as current: none is handed out any more |
| PluginCache.PluginService.Unregister | borrowed/chartjs-2/Chart.js:7972-7982 | the given plugins go, the others keep their order, the id grows, and no cache is handed out any more |
| PluginCache.PluginService.Clear | borrowed/chartjs-2/Chart.js:7988-7991 | the list is empty, the id grows, and no cache is handed out any more |
| PluginCache.PluginService.Descriptors | borrowed/chartjs-2/Chart.js:8046-8083 | the result is the description of the plugins registered now: for the chart's present configuration if its cache is current, as it is after everything but a change of the configuration, and else for the configuration the cache was filled with |
| PluginCache.PluginService.Invalidate | borrowed/chartjs-2/Chart.js:8091-8093 | the chart's cache is gone, so that the chart is current whatever its configuration was; the other charts stay as they were |
| PluginCache.PluginService.Update | borrowed/chartjs-2/Chart.js:9616-9637 | after a changed configuration and the invalidation the plugins asked for are those of the new configuration, and no other chart stops being current |
| BarStacks.StackData | borrowed/chartjs-2/Chart.js:12951-12977 | each value is added to the sum of its sign at its index, and indices that have a value have both sums |
| BarStacks.StackedSums | borrowed/chartjs-2/Chart.js:12951-12977 | after stacking a dataset the sums of its key include it and the other keys' sums are still right |
| BarStacks.DetermineDataLimits | borrowed/chartjs-2/Chart.js:12979-13033 | with stacks the limits are the smallest and the largest of all their sums, without stacks those of all values, and the defaults if there are none |
| BarStacks.SameKeyIff | borrowed/chartjs-2/Chart.js:12933-12941 | two datasets have one stack of the scale exactly when they are of one type and one stack, and where the option is undefined those without a stack stand alone; an undefined stack is otherwise the one with the empty name |
| BarStacks.LimitsMeaning | borrowed/chartjs-2/Chart.js:12979-13033 | the limits are the extremes of the sums over the datasets that belong together, or without stacks of the values, and 0 and 1 if there are none |
| BarStacks.CalculateBarValues | borrowed/chartjs-2/Chart.js:5050-5087 | a bar starts at the sum of the earlier same-sign values of its stack and has the length of its value |
| BarStacks.BelowWithinKey | borrowed/chartjs-2/Chart.js:12933-12949 | the bars of one stack are summed under one key of the scale |
| BarStacks.BarWithinSums | borrowed/chartjs-2/Chart.js:5050-5087 | both ends of a bar lie between the negative and the positive sum of its key |
| BarStacks.BarsFit | borrowed/chartjs-2/Chart.js:5050-5087 | with stacks both ends of every bar lie within the limits |
| BarStacks.BarsFitIff | borrowed/chartjs-2/Chart.js:12979-13033 | both ends of a bar lie within the limits exactly when there are stacks or values on both sides of zero |
| BarStacks.BarsTouch | borrowed/chartjs-2/Chart.js:5050-5087 | a stacked bar starts where the previous one of its stack and sign ends |
| BarStacks.FirstBar | borrowed/chartjs-2/Chart.js:5050-5087 | a bar starts at zero where it is not stacked or is the first of its stack and sign |
| TickSkip.Factorize | borrowed/chartjs-2/Chart.js:3156-3175 | exactly the proper divisors, ascending, without repeats |
| TickSkip.GetEvenSpacing | borrowed/chartjs-2/Chart.js:11329-11343 | the common distance, found exactly when the indices start with it and are that far apart |
| TickSkip.EvenStepsIff | borrowed/chartjs-2/Chart.js:11329-11343 | majors count as even exactly when they are the multiples of their distance |
| TickSkip.CalculateSpacing | borrowed/chartjs-2/Chart.js:11345-11364 | the smallest proper divisor of the majors' distance above the spacing, unless it is the largest proper divisor, which the loop never offers; else the spacing, or 1 if that is larger |
| TickSkip.LargestNotOffered | borrowed/chartjs-2/Chart.js:11345-11364 | for majors 9 apart and a spacing of 1.5 the factor 3 is not taken, because it is the largest |
| TickSkip.GetMajorIndices | borrowed/chartjs-2/Chart.js:11366-11375 | the indices of the major ticks in order |
| TickSkip.SkipMajors | borrowed/chartjs-2/Chart.js:11377-11393 | every s-th major keeps its label, no other tick does |
| TickSkip.Skip | borrowed/chartjs-2/Chart.js:11395-11424 | between the limits exactly the ticks on the grid are marked and the others lose their label; outside nothing changes; it fails exactly when the start is a fraction and lies before the end |
| TickSkip.SkipBetweenMajors | borrowed/chartjs-2/Chart.js:12078-12080 | the passes between neighbouring majors, in place, are those on values, and never fail |
| TickSkip.SkipByMajors | borrowed/chartjs-2/Chart.js:12077-12084 | the passes between the majors and the two outer ones, in place, are the passes on values one after the other |
| TickSkip.CollectNonSkipped | borrowed/chartjs-2/Chart.js:11317-11327 | the marked ticks in order |
| TickSkip.AutoSkip | borrowed/chartjs-2/Chart.js:12058-12088 | the whole selection is the specified marking of the ticks; it fails exactly when two or more majors are within the limit and the first of them, less their average distance, is a fraction above zero |
| TickSkip.SelectionFailsIff | borrowed/chartjs-2/Chart.js:12077-12084 | of all passes only the one below the first major can fail, and it does exactly when it starts at a fraction above zero |
| TickSkip.FractionExample | borrowed/chartjs-2/Chart.js:12081-12082 | twelve ticks with majors at 5, 7 and 10 and a limit of 11 make the selection fail |
| TickSkip.MajorsKept | borrowed/chartjs-2/Chart.js:12058-12088 | whenever the selection succeeds and the majors fit the limit, every major keeps its mark, evenly spaced or not |
| TickSkip.EvenMajorsMarks | borrowed/chartjs-2/Chart.js:12077-12084 | for majors at d, 2d, ... and an offered factor f all passes together mark exactly the multiples of f before the next major would come, every major among them |
| TickSkip.EvenSelection | borrowed/chartjs-2/Chart.js:12058-12088 | then exactly every f-th tick remains, and fewer than the limit plus one |
| TickSkip.EvenExample | borrowed/chartjs-2/Chart.js:12058-12088 | evenly spaced majors with an offered factor exist: nine ticks with majors at 4 and 8 and room for ten |
| TickSkip.PlainSelection | borrowed/chartjs-2/Chart.js:12058-12088 | without majors every s-th tick remains, at most the limit plus one |
| TickSkip.CollectedEvery | borrowed/chartjs-2/Chart.js:11317-11327 | collecting the multiples of f gives them in order, as many as fit |
| TickCount.SelectionBound | borrowed/chartjs-2/Chart.js:12058-12088 | if the majors fit the limit and the selection succeeds, at most the limit plus one remain, and one more for each distance between neighbouring majors that is shorter than the spacing |
| TickCount.MajorsSelection | borrowed/chartjs-2/Chart.js:12070-12073 | if the majors do not fit the limit, exactly every s-th of them remains, the first one among them, and fewer than the limit plus one |
| TickCount.CrowdedMajors | borrowed/chartjs-2/Chart.js:12077-12084 | nine ticks with majors at 0, 1, 2 and 8 and a limit of 4 keep six, and two distances there are too short |
| TickCover.SelectionCovers | borrowed/chartjs-2/Chart.js:12058-12088 | with majors within the limit any two spacings of ticks hold a kept one, from one average distance below the first major to one behind the last, or over all ticks if there is a single major; the tick where this begins is kept, and the labels of exactly the other ticks there go |
| TickCover.SelectionApart | borrowed/chartjs-2/Chart.js:12058-12088 | kept ticks are at least the spacing apart, unless both are majors, or the second is and the first is where the reach of the selection begins |
| TickCover.StretchedStep | borrowed/chartjs-2/Chart.js:11395-11424 | between two limits the spacing is stretched to less than twice itself, or dropped where they are closer than it |
| TickCover.OthersSelected | borrowed/chartjs-2/Chart.js:12070-12087 | without majors, or with too many, the labels of exactly the ticks that are not kept go |
| LinearTicks.FloorLog10 | borrowed/chartjs-2/Chart.js:10605-10607 | the exponent brackets the number between two powers of ten |
| LinearTicks.NiceNumBounds | borrowed/chartjs-2/Chart.js:10605-10631 | a nice number at least the range and less than two and a half times it |
| TickSpacing.NiceNumLeast | borrowed/chartjs-2/Chart.js:10605-10631 | no nice number between the range and its nice number is passed over |
| LinearTicks.NiceGap | borrowed/chartjs-2/Chart.js:10605-10631 | a larger nice number is at least twice as large |
| LinearTicks.DecimalPlaces | borrowed/chartjs-2/Chart.js:10408-10419 | the loop ends on every decimal number and returns its smallest number of decimal places |
| LinearTicks.RoundBack | borrowed/chartjs-2/Chart.js:10408-10419 | scaling, rounding and scaling back changes nothing exactly when the scaled number is whole |
| LinearTicks.NiceIsDecimal | borrowed/chartjs-2/Chart.js:12711-12714 | every nice spacing is a decimal number |
| LinearTicks.StepExact | borrowed/chartjs-2/Chart.js:12743-12749 | steps from a rounded start stay where they are when they are rounded to the spacing's decimal places |
| LinearTicks.GenerateTicks | borrowed/chartjs-2/Chart.js:12682-12752 | for any step size, precision and limits of the user: below the smallest spacing the two ends of the range; otherwise steps of the final spacing between the user's limits where they are almost multiples of it, or between the multiples around the range, with the user's limits as first and last tick |
| LinearTicks.LadderBrackets | borrowed/chartjs-2/Chart.js:12721-12749 | if no step size takes a limit of the user: strictly increasing, constant spacing except next to a limit of the user, where it is at most as wide; the first step holds the minimum and the last the maximum |
| LinearTicks.LadderLength | borrowed/chartjs-2/Chart.js:12697-12710 | in any unit at most the allowed number of ticks if that is three or more, at most three if it is two |
| TickSpacing.FinalIsFinest | borrowed/chartjs-2/Chart.js:12697-12710 | the spacing is the least nice number of units of which the allowed number cover the range or, if its ticks do not fit, the next one; it is the least of all that fit, and fits where three ticks or more are allowed |
| TickSpacing.RoundUpLeast | borrowed/chartjs-2/Chart.js:12716-12719 | rounding up gives the least number with the user's number of decimal places that is not below the spacing |
| TickSpacing.StepIsRight | borrowed/chartjs-2/Chart.js:12697-12719 | under any options the ticks are generated with the finest nice number of the step size or, without one, of one, rounded up to the precision if there is one |
| TickSpacing.TooFineIff | borrowed/chartjs-2/Chart.js:12697-12702 | the ends of the range are the only ticks exactly when the user sets no limit and spacings below ten to the power of -14 would cover the range |
| LinearTicks.TwoTicksEnds | borrowed/chartjs-2/Chart.js:12735-12750 | whatever the options, there are two ticks exactly when the ends of the climb are closer than one spacing and its tolerance |
| LinearTicks.TwoTicks | borrowed/chartjs-2/Chart.js:12697-12750 | at the final spacing, with or without a precision or a step size: two ticks exactly when no multiple of it lies inside the range, clearly inside at a limit that the step size takes; where it takes both, exactly when they are closer than one spacing and its tolerance |
| LinearTicks.TwoTicksKept | borrowed/chartjs-2/Chart.js:12697-12750 | two allowed ticks stay two when a step size takes both limits of the user |
| LinearTicks.TwoTicksIff | borrowed/chartjs-2/Chart.js:12697-12710 | for nice spacings, as they are without a precision, and without a limit taken by a step size: with two ticks allowed there are two exactly when no multiple of the first spacing, or none of the widened one, lies strictly inside the range |
| LinearTicks.TwoTicksExceeded | borrowed/chartjs-2/Chart.js:12704-12709 | two allowed ticks from -1 to 1 become -5, 0 and 5 |
| LinearTicks.RoundUpDoubles | borrowed/chartjs-2/Chart.js:12715-12719 | rounding a nice spacing up to a precision leaves it alone or doubles it at least |
| LinearTicks.TicksWithin | borrowed/chartjs-2/Chart.js:12697-12749 | no step size, precision or limits of the user inside the range make more ticks than are allowed, or three |
| LinearTicks.IncreasingIff | borrowed/chartjs-2/Chart.js:12724-12750 | with any options the ticks increase strictly from the first to the last exactly unless a step size takes the user's minimum and the climb lands past the last tick: past a maximum that is not its end, or, where the last tick is its end, with minimum and end both off by exactly the tolerance |
| LinearTicks.IncreasingSteps | borrowed/chartjs-2/Chart.js:12735-12750 | for any range and limits, the ticks increase exactly when the first step and the last one do |
| LinearTicks.EqualLimits | borrowed/chartjs-2/Chart.js:12745-12750 | between equal limits of the user the ticks never increase |
| LinearTicks.ExactMinimumIncreases | borrowed/chartjs-2/Chart.js:12724-12750 | a minimum that is not at the very edge of the tolerance and has no more decimal places than the spacing makes the ticks increase |
| LinearTicks.HundredsPass | borrowed/chartjs-2/Chart.js:12724-12750 | from 90 to 250 with step size 100 the ticks are 90, 190, 290 and 250 |
| LinearTicks.HundredsSpacing | borrowed/chartjs-2/Chart.js:12697-12714 | the spacing there is 100 |
| LinearTicks.HandleTickRangeOptions | borrowed/chartjs-2/Chart.js:12762-12827 | the range is never empty and holds the user's limits, unless both ends were asked for in the wrong order; it is the asked one where that is not empty, and otherwise the asked end or ends moved apart by one; an end that the user does not set holds the data and what is suggested, and zero where it is to begin there |
| LinearTicks.EvenIff | borrowed/chartjs-2/Chart.js:12724-12749 | between a minimum and a maximum of the user, a step size gives evenly spaced ticks exactly when a whole number of steps fits between them, the minimum is almost a multiple of the spacing, and it has no more decimal places than the spacing or there is only one step |
| LinearTicks.HalfStepsUneven | borrowed/chartjs-2/Chart.js:12724-12733 | from 0.5 to 2.5 with step size 1 the ticks are 0.5, 1, 2 and 2.5 |
| LinearTicks.HalfStepSpacing | borrowed/chartjs-2/Chart.js:12697-12714 | the spacing there is 1 |
| Scheme.GcdGreatest | bindings/guile/gnc-engine-guile.cpp:1729-1734 | Euclid's algorithm gives the greatest common divisor |
| Scheme.ReduceSame | bindings/guile/gnc-engine-guile.cpp:1729-1734 | an exact quotient denotes the same number, and its parts are no larger |
| Scheme.ReduceReduced | bindings/guile/gnc-engine-guile.cpp:1729-1734 | it is the given fraction exactly when that is in lowest terms |
| KvpBridge.PutSorted | libgnucash/engine/kvp-frame.cpp:99-117 | setting a key keeps a frame sorted and free of nulls |
| KvpBridge.GetPut | libgnucash/engine/kvp-frame.cpp:99-117 | the set key reads back its new value, a null removes it, every other key keeps its value |
| KvpBridge.IsListOfStringPairs | bindings/guile/gnc-kvp-guile.cpp:23-32 | the loop accepts exactly the proper lists of pairs headed by strings |
| KvpBridge.ScmToKvp | bindings/guile/gnc-kvp-guile.cpp:34-98 | the reader's dispatch, in the source's order of tests, computes the specified reading |
| KvpBridge.FrameFromScm | bindings/guile/gnc-kvp-guile.cpp:72-86 | the loop over an association list builds the specified frame |
| KvpBridge.ListFromScm | bindings/guile/gnc-kvp-guile.cpp:87-96 | prepending and reversing gives the elements in order, null elements included |
| KvpBridge.KvpToScm | bindings/guile/gnc-kvp-guile.cpp:100-154 | the recursive printer with its reversed accumulators computes the specified data |
| KvpForms.PrintStands | bindings/guile/gnc-kvp-guile.cpp:100-154 | a value prints as the datum that stands for it: an exact number of the same worth, a float, a string, a list of pairs of its keys and data in order, a list of data in order, or #f |
| KvpBridge.RoundTrip | bindings/guile/gnc-kvp-guile.cpp:23-154 | a value of any nesting comes back unchanged exactly when it is canonical: 64-bit integers, finite doubles, lowest-terms numerics with a denominator above 1, strings that are no GUID, GUIDs, non-empty sorted frames without nulls, non-empty lists not all of whose elements are lists headed by a string or GUID |
| KvpBridge.FrameRoundTrip | bindings/guile/gnc-kvp-guile.cpp:72-86 | a frame comes back exactly when it is not empty, is sorted without nulls, and all its values come back |
| KvpBridge.ListRoundTrip | bindings/guile/gnc-kvp-guile.cpp:87-96 | a list comes back exactly when it is not empty, does not look like an association list, and all its elements come back |
| KvpBridge.NumericRoundTrip | bindings/guile/gnc-kvp-guile.cpp:37-60 | a numeric comes back exactly when its denominator is above 1 and it is in lowest terms within 64 bits |
| KvpBridge.AmountPrinted | bindings/guile/gnc-engine-guile.cpp:1709-1734 | an amount with a positive denominator prints as the same number in lowest terms, and reading it never overflows |
| KvpBridge.NegativeDenominatorOverflows | bindings/guile/gnc-engine-guile.cpp:1709-1734 | the smallest 64-bit integer over -1 overflows and reads as a double |
| KvpBridge.AmountOverflowsIff | bindings/guile/gnc-engine-guile.cpp:1709-1734 | reading a printed 64-bit amount overflows, and reads as a double, exactly when the denominator is negative, the fraction is in lowest terms, and one of its parts is the smallest 64-bit integer |
| KvpBridge.ReadingNormalises | bindings/guile/gnc-kvp-guile.cpp:34-154 | for every Scheme value, printing and reading again what was read gives the same, exactly when the first reading gave no empty frame and no double that is not finite |
| KvpBridge.LosslessIff | bindings/guile/gnc-kvp-guile.cpp:34-98 | what the reading loses, seen from the Scheme value: an association list, read as such at any depth, all of whose keys end without a value, or an exact number outside the range whose double is not finite |
| KvpBridge.StableIff | bindings/guile/gnc-kvp-guile.cpp:34-154 | for every Scheme value, printing and reading again what was read gives the same exactly when the value has neither |
| KvpBridge.LastBindingWins | bindings/guile/gnc-kvp-guile.cpp:72-86 | each key of the frame has the value of its last association, and none if that reads as null |
| QueryAlgebra.SatCross | libgnucash/engine/qofquery.cpp:1173-1195 | a record satisfies the cross product of the groups exactly when it satisfies both queries |
| QueryAlgebra.SatInvert | libgnucash/engine/qofquery.cpp:1049-1118 | the De Morgan expansion of a query with terms is satisfied exactly when the query is not |
| QueryTerms.PathBack | bindings/guile/gnc-engine-guile.cpp:364-403 | a printed parameter path reads back |
| QueryTerms.PredBack | bindings/guile/gnc-engine-guile.cpp:425-491 | the printed parts of each of the eight predicate types rebuild the predicate, with the default comparison for GUIDs and characters, or are refused by its constructor |
| QueryTerms.TermBack | bindings/guile/gnc-engine-guile.cpp:411-709 | a printed term reads back as the query of that one term with its inversion, as an empty query if its path is empty, or as null if its predicate cannot be built; never as an error |
| QueryForms.StringWritten | bindings/guile/gnc-engine-guile.cpp:411-709 | a string term of version 2 prints as its path, its inversion, its type's name, comparison, options, whether it is a regular expression and its pattern, and this list is read as a query that demands it |
| QueryForms.DateWritten | bindings/guile/gnc-engine-guile.cpp:411-709 | the same for a date: comparison, options and time |
| QueryForms.NumericWritten | bindings/guile/gnc-engine-guile.cpp:411-709 | the same for an amount: comparison, options, and the pair of numerator and denominator |
| QueryForms.GuidWritten | bindings/guile/gnc-engine-guile.cpp:411-709 | the same for GUIDs: comparison, options and the list of texts |
| QueryForms.Int64Written | bindings/guile/gnc-engine-guile.cpp:411-709 | the same for an integer |
| QueryForms.DoubleWritten | bindings/guile/gnc-engine-guile.cpp:411-709 | the same for a double |
| QueryForms.BooleanWritten | bindings/guile/gnc-engine-guile.cpp:411-709 | the same for a boolean |
| QueryForms.CharWritten | bindings/guile/gnc-engine-guile.cpp:411-709 | the same for characters: comparison, options and letters |
| QueryForms.NothingWritten | bindings/guile/gnc-engine-guile.cpp:411-491 | a missing text, and a term of an unknown type, print as #f |
| QueryTermsV1.DateMeaning | libgnucash/engine/Query.cpp:383-425 | without bounds nothing is added; otherwise a record is matched exactly when it meets the bounds in use |
| QueryTermsV1.AccountMeaning | libgnucash/engine/Query.cpp:269-304 | an account term adds something exactly for a known match and at least one account, and then demands that match on the path that belongs to it |
| QueryTermsV1.AnyBitMeaning | bindings/guile/gnc-engine-guile.cpp:233-254 | a bit of the cleared field is set exactly when a number of the list has it |
| QueryTermsV1.TermMeaningV1 | bindings/guile/gnc-engine-guile.cpp:711-1033 | a term that adds something holds exactly when its match agrees with its sense; one that adds nothing adds nothing negated either |
| QueryForms.AmountTerm | bindings/guile/gnc-engine-guile.cpp:803-852 | an amount term demands that the share price, the shares or the value is at least, at most or exactly the amount, as its symbols say, or with a false sense that it is not |
| QueryForms.UnknownAmount | bindings/guile/gnc-engine-guile.cpp:848-851 | an amount term for anything else is null |
| QueryForms.StringTerm | bindings/guile/gnc-engine-guile.cpp:888-950 | a string term demands that the action, the description, the memo or the number contains the pattern, with or without regard to case |
| QueryForms.AccountTerm | bindings/guile/gnc-engine-guile.cpp:854-886 | an account term demands that the account is one of the list, or none of it, or that the accounts of the transaction match all of it; without accounts, or for another symbol, it adds nothing |
| QueryForms.MissingAccount | bindings/guile/gnc-engine-guile.cpp:302-330 | an account list with #f in it is an error |
| QueryForms.ClearedTerm | bindings/guile/gnc-engine-guile.cpp:952-965 | a cleared term demands that the reconcile flag is one of the letters whose bits are in the list |
| QueryForms.BalanceTerm | bindings/guile/gnc-engine-guile.cpp:967-981 | a balance term demands that the imbalance of the transaction is zero, or that it is not |
| QueryForms.GuidTerm | bindings/guile/gnc-engine-guile.cpp:983-1004 | a GUID term demands that the split, its transaction or its account has the GUID; for another kind it adds nothing |
| QueryForms.DateTerm | bindings/guile/gnc-engine-guile.cpp:757-801 | a date term demands that the posting date is at least the start and at most the end, as far as they are in use |
| QueryFolds.ScmToAndTerms | bindings/guile/gnc-engine-guile.cpp:1078-1117 | the loop over a group merges its terms as specified |
| QueryFolds.ScmToOrTerms | bindings/guile/gnc-engine-guile.cpp:1119-1160 | the loop over the groups merges them as specified |
| QueryFolds.AndMeaning | bindings/guile/gnc-engine-guile.cpp:1078-1117 | the merged group holds exactly when the query so far and all its effective terms hold |
| QueryFolds.OrMeaning | bindings/guile/gnc-engine-guile.cpp:1119-1160 | the merged query holds exactly when the query so far or some effective group holds |
| QueryFolds.ReadMeaning | bindings/guile/gnc-engine-guile.cpp:1078-1160 | on any nested list, for either version, the built query matches a record exactly when all effective terms of some effective group hold, or when no group is effective |
| QueryFolds.TermsToScm | bindings/guile/gnc-engine-guile.cpp:1049-1076 | the nested loops print the groups and terms in order |
| QueryFolds.DnfBack | bindings/guile/gnc-engine-guile.cpp:1049-1160 | printed terms read back as the same OR of ANDs in order, less the terms that are not rebuilt and the groups that lost all of theirs |
| QueryFolds.DnfUnchanged | bindings/guile/gnc-engine-guile.cpp:1049-1160 | nothing is lost exactly when no group is empty and every term is rebuilt as it was |
| QueryBridge.TermMeaningV2 | bindings/guile/gnc-engine-guile.cpp:496-709 | a version-2 term demands its predicate, or its failure if inverted |
| QueryBridge.TermMeaning | bindings/guile/gnc-engine-guile.cpp:711-1033 | a version-1 term demands its match, or its failure if its sense is false |
| QueryBridge.SortBack | bindings/guile/gnc-engine-guile.cpp:1162-1233 | a printed sort reads back; without a path it comes back as options 0, increasing |
| QueryBridge.EntriesToQuery | bindings/guile/gnc-engine-guile.cpp:1538-1668 | the loop over the labelled entries computes the specified query, null or error |
| QueryBridge.QueryRoundTrip | bindings/guile/gnc-engine-guile.cpp:1235-1283 | for every query, reading what was printed gives the same search type, limit and sorts with a path, and the terms that can be built again |
| QueryBridge.QueryUnchanged | bindings/guile/gnc-engine-guile.cpp:1235-1283 | a query comes back unchanged exactly when no group is empty, every term has a path and a constructible predicate with its default comparison where there is one, and every sort without a path is the default |
| QueryLabels.QueryV1Settings | bindings/guile/gnc-engine-guile.cpp:1378-1536 | a version-1 query is about splits and has the terms, the three sorts with their directions, and the limit of the last entries with their labels, each sort symbol standing for its path |
| QueryLabels.QueryV1Accepted | bindings/guile/gnc-engine-guile.cpp:1378-1536 | a list that begins with a pair is read as a query exactly when all its entries are ones the reader takes and one of them has terms |
| QueryLabels.PrintedQuery | bindings/guile/gnc-engine-guile.cpp:1235-1283 | a printed query is tagged and has each of its six parts under its own label |
| QueryLabels.PrintedTerms | bindings/guile/gnc-engine-guile.cpp:1049-1076 | printed terms are a list of groups, each the list of its printed terms, in order |
| Histories.FlagHistory | contrib/gnuc2ooo.py:521-522 | a flag is up exactly when something raised it and nothing lowered it since |
| Histories.TraceRun | contrib/gnuc2ooo.py:423-553 | a run ends in the last state of its trace, and its output is, event by event, what the states of the trace put out |
| Histories.EventOf | contrib/gnuc2ooo.py:451-529 | every row of the output comes from one event, at the place where that event's output begins |
| SaxImport.GCContent.StartElement | contrib/gnuc2ooo.py:440-448 | the object's state moves as specified and no row is written |
| SaxImport.GCContent.Characters | contrib/gnuc2ooo.py:531-553 | the object's state moves as specified and no row is written |
| SaxImport.GCContent.EndElement | contrib/gnuc2ooo.py:451-529 | the object's state moves as specified and exactly the specified row is written |
| SaxImport.Parse | contrib/gnuc2ooo.py:423-553 | a parse writes the rows of the specified run up to the first exception |
| SaxImport.KeysKept | contrib/gnuc2ooo.py:489-553 | no event adds a key to a dictionary or removes one |
| SaxImport.AlwaysFull | contrib/gnuc2ooo.py:425-553 | along every run the dictionaries have exactly the columns of their tables, so no lookup fails |
| SaxImport.ChunkIndependence | contrib/gnuc2ooo.py:531-553 | joining neighbouring chunks of text changes neither the final state nor the rows, from any state |
| SaxImport.DatePostedColumns | contrib/gnuc2ooo.py:497-501 | a posting date is split into its month and its day, and the handler is ready for the next one |
| SaxImport.TemplateFlag | contrib/gnuc2ooo.py:521-553 | the template flag is set exactly when text arrived right inside a templates element that has not ended since |
| SaxImport.TemplateRows | contrib/gnuc2ooo.py:489-522 | while it is set no event writes a row, and the end of a transaction writes its row exactly when it is not |
| SaxColumns.ColonParts | contrib/gnuc2ooo.py:446-448 | the table is the part of a tag's name before the first colon, the key the part up to the next |
| SaxColumns.TextsKept | contrib/gnuc2ooo.py:440-553 | along every run each dictionary holds, key by key, the texts that arrived in the elements of its table since the last end of its record |
| SaxColumns.AccountColumns | contrib/gnuc2ooo.py:464-495 | an account's row has the stripped texts of its name, id, type, description and parent in that order |
| SaxColumns.SplitColumns | contrib/gnuc2ooo.py:481-512 | a split's row has its id, the transaction's id so far, the values of its two fractions and its account |
| SaxColumns.TransactionColumns | contrib/gnuc2ooo.py:474-520 | a transaction's row has its id, number, description, month and day |
| SaxImport.StripConcat | contrib/gnuc2ooo.py:504-517 | stripping hides an appended text exactly when it is all blank |
| SaxImport.SplitReference | contrib/gnuc2ooo.py:502-520 | a split row carries the id of its transaction's row exactly when only blanks are added to that id behind the split |
| SaxImport.ReferenceIntact | contrib/gnuc2ooo.py:502-520 | if the id is not opened again behind the split, the split row carries the id of its transaction's row |
| SaxImport.TransactionFollows | contrib/gnuc2ooo.py:502-522 | in documents that open neither an id nor the templates between a split and the end of its transaction, every written split row is followed by its transaction's row, which has the id the split row carries |
| SaxImport.RowsIntact | contrib/gnuc2ooo.py:489-522 | of the rows that a parse of such a document returns, each split row carries the id of the first transaction row behind it |

## Left out

* Drawing, events, animation, tooltips, legends and colour arithmetic of Chart.js, its date adapters and time units.
* Rounding errors of floating point; a chart value that is not a number is an absent value.
* The second fit of `fitBoxes`, which is never reached, the sorting of boxes by weight, and full-width boxes' other sizes.
* Charts with hidden elements, relative points or several values per datum in stacked bars, and user-set scale limits.
* The merging of plugin options objects (`helpers.clone`) and the plugins' hooks.
* KVP types the printer does not know are one constructor that prints #f; null string, GUID and frame pointers, strings
  with embedded null characters and cyclic Scheme lists are not modelled.
* Query terms that the engine cannot compile, which it treats as satisfied whether inverted or not; the books of a
  query; the merge of queries for different object types, which the readers never ask for.
* Storage: Guile and SWIG memory, string caches, and the freed search type the version-2 reader leaves behind.
* The checkpoint counter and the database statements of `gnuc2ooo.py`; a row is appended to a sequence instead.
- LinearTicks.GenerateTicks: asks for a minimum below the maximum, as `HandleTickRangeOptions` arranges unless the user asks for both ends in the wrong order, and for at least two ticks, as the scale does (borrowed/chartjs-2/Chart.js:12829-12866); for a step size that is not negative and a precision that is a natural number.
- LinearTicks.IncreasingIff: asks for the user's limits to be the range's, as they are unless the two ends asked for are equal; there `IncreasingSteps` and `EqualLimits` say when the ticks increase. `LadderBrackets` and `TwoTicks` ask for the same.
- LinearTicks.HandleTickRangeOptions: the ends of the data are numbers, as the linear scale's own limits are (borrowed/chartjs-2/Chart.js:13027-13032).
- TickSkip.AutoSkip: the axis length enters only as the limit of ticks, because the computation of that limit measures labels.
- SaxImport.Parse: the value of a fraction is a parameter, because parsing a decimal number is Python's.
- Layout.Update: takes boxes that were not counted before, as the layout function builds them anew on every call.
- Layout.FitBox: a box's answer is a parameter, so the width, the height and the margins that it is offered (borrowed/chartjs-2/Chart.js:7040-7051, 7120-7134) are not modelled; every box is asked once.
