# Verified model of the weather service

A Dafny model of the stateful parts of the OpenSprinkler weather service, with proofs about whole
runs of them. `dafny verify dfyconfig.toml` checks everything.

| file | models |
|---|---|
| `Common.dfy` | options, results, JavaScript numbers, clamping and rounding |
| `HoleFilling.dfy` | the meaning of a hole-filling pass over the baseline-ETo image, and what passes keep |
| `RowWindow.dfy` | image files, rows and the ocean mask |
| `FillPassStream.dfy` | the streaming pass: file reading, allocator, five row pointers, output buffer |
| `Quantise.dfy` | the pixel range and the reduction from 16 to 8 bits |
| `BaselineFile.dfy` | the preparer's main program, the file header, and the service's reader |
| `OceanMask.dfy` | where on earth the mask is looked up, and what that decides |
| `SoilMoisture.dfy` | one day of the rain-bank water budget, and runs of days |
| `StateStore.dfy` | the single-file state store |
| `WaterBudget.dfy` | a poll of the water budget, and runs of polls |
| `BudgetRace.dfy` | polls of the water budget that interleave |
| `BudgetMemory.dfy` | what a water budget remembers of the days behind it |
| `Fallback.dfy` | the provider fallback chain |
| `Skips.dfy` | the freeze, wind and rain guards |
| `Decision.dfy` | the meaning of the watering-decision pipeline |
| `WateringService.dfy` | the pipeline as a process with module-level caches |
| `DecisionRuns.dfy` | what every run of the pipeline keeps: scale cache, hits, decisions |
| `RequestHandling.dfy` | what a request asks for: station, providers, methods, the parts of a decision |
| `ServiceBudget.dfy` | the water budget behind the pipeline, over runs |
| `SkipMemo.dfy` | the skip-weather memo, over runs |
| `ForecastCache.dfy` | the forecast cache and the fetch that it shields |
| `Geocoder.dfy` | the geocoder's bounded cache |
| `LegacyWire.dfy` | the legacy response format |
| `RainGauge.dfy` | the rain-gauge accumulators |

Where a program changes state, its Dafny form is a method or a class over arrays, fields and loops,
proved equal to a function; the theorems are lemmas about that function.

## How the source is read

- Image pixels, counters and weights are integers. The preparer's float accumulator never reaches
  2^24 (`HoleFilling.CollectFitsFloat`) and its divisions are floors of exact quotients.
- The preparer's dimensions are parameters: at least two rows, and a width that is a whole multiple of the
  mask's, as its `#define`s have it (`BaselineFile.ShippedLayoutFits`).
- Inches, percentages and coordinates are real numbers; `Math.round` is the floor of v + 0.5.
  `Common.Num` separates finite numbers from NaN and the infinities, so the guards against them are visible.
- The two single-precision floats of the image header are given by their bytes; the end-to-end theorem takes
  any relative rounding error, which is 2^-24 for one rounding to the nearest float.
- Local dates are day numbers, instants are integers, and clocks, provider outcomes, disk failures
  and environment variables are parameters.
- A pass reads its rows through `FillPassStream.Memory`, whose operations require the row to be
  live. That the methods verify is the proof that no missing or freed row is ever dereferenced and
  no row is freed twice, also at the top and bottom edges.
- In `Decision.dfy` the arithmetic of the Zimmerman, rain-delay and ETo methods is a parameter, while
  their provider calls are modelled; the water budget is the one of `WaterBudget.dfy`. Each answer
  carries the set of providers whose data went into it.
- A request is asked at one instant and answered at another; its answer is stored, and its guards look at
  the memo, when it is answered. A weather call is made with the exact coordinates and the station.

## Where the code differs from what it says or seems to promise

- The comment at `baselineEToData/dataPreparer.c:60-64` maps the largest pixel to 254. It does so
  exactly for ranges of 128 to 255 values; from 256 values on the largest pixels turn into the fill
  value (`Quantise.RangeEnds`, `Quantise.ReduceToFill`).
- Longitude 180 passes the coordinate filter and reads the first pixel of the next row; with an odd width
  it would be the half pixel east of -180 that reads a neighbouring row (`BaselineFile.EdgeReadsNextRow`).
- Racing polls of one date credit the day once (`BudgetRace.DayIsCreditedOnce`). The stored date never goes
  back, whatever the schedule, exactly when the usable polls of the location share one date that is not before
  the stored one (`BudgetRace.NeverRewindsIff`); a poll that straddles midnight is enough to put the old
  day's state back (`BudgetRace.CrossMidnightWriterRewinds`).
- "A watering scale produced by a fallback provider is not cached" holds for the call that
  `servedFallback` watches. A forecast may still come from a provider that is not the primary one
  (`DecisionRuns.CacheablePrimaryOnlyIff`), and a water budget advanced on a fallback's data is cached
  by the next poll that the primary serves (`ServiceBudget.HeldFallbackScaleIsCached`). Over any run the
  budget's cached answers hold the primary's data alone exactly when the primary served every poll that
  advanced the location's budget since its last gap reset (`ServiceBudget.BudgetPrimaryOnlyIff`); what
  any provider returned before plays no part (`ServiceBudget.MemoryDecidesAnswer`). How long one day's weather
  makes a difference can be told from the days since (`BudgetMemory.DayIsForgottenIff`).
- A hold of the budget that no fallback served is cached: whether every provider failed or the primary's
  weather was incomplete, the same request cannot advance the budget for the rest of the local day. Exactly the
  answered polls that did not advance it and were not served by a fallback do this
  (`ServiceBudget.HoldKeepsBudgetIff`); only a request with other options still reaches the budget.
- A scale is cached until the end of the local day on which it is stored. A request asked before midnight and
  answered after it leaves the old day's answer for the whole new day; a hit falls on the day on which its
  answer was asked for if and only if no day ended in between (`DecisionRuns.HitReproducesStoredAnswer`).
- The skip-weather memo key names the provider class, the selected provider, the place to four decimals and
  the station's ID, but no API key and no fallback list, and takes stations called "nopws" and "pwskey" for none
  and for a bare key (`SkipMemo.MemoKeyIff`, `SkipMemo.NopwsCollides`). Of two requests with one key, the
  guards of the second are given only what its own call returned if and only if both make the same call and
  the first chain is a prefix of the second (`SkipMemo.MemoIsTransparentIff`). So a request with a bad API key
  is given the weather that a good one fetched.
- The `servedFallback` of a decision belongs to the last provider call that returned something, which is
  the guards' own when they fetch weather (`SkipMemo.ReportedFlagsFollowLastCall`).
- A legacy text survives encoding and decoding, in whatever order the escapes are undone, exactly when it is
  free of `+`, of a spelt-out `\n` and of the word AMPERSAND (`LegacyWire.RoundTripIff`).
- A reading that arrives as `null` acts as 0 in the Weather Underground totals, so the reading after it is
  credited in full and the counter before it a second time (`RainGauge.NullsRecredit`); the local station
  skips missing readings, and the two agree exactly when no gap does that (`RainGauge.AccumulatorsAgreeIff`).
  Only a reading whose key is absent turns the total into NaN (`RainGauge.TotalIsFiniteIff`). The two
  formulas of that provider differ by the readings after resets (`RainGauge.TotalsDifferAtResets`).

## Model

| member | source | states |
|---|---|---|
| HoleFilling.CollectFitsFloat | baselineEToData/dataPreparer.c:289-308 | no partial stencil sum reaches 2^24, so single-precision accumulation is exact |
| HoleFilling.FilledBetween | baselineEToData/dataPreparer.c:289-311 | a filled pixel lies between the least and greatest known pixels of its own 5x5 window and is never 255 |
| HoleFilling.HoleGetsWeightedMean | baselineEToData/dataPreparer.c:289-316 | a missing land pixel is filled if and only if its known neighbours weigh at least 12, at 4, 3, 2 and 1 for the four distances of the window, and then with the floor of their weighted mean |
| HoleFilling.NeighbourCounts | baselineEToData/dataPreparer.c:304-306 | raising the known neighbour at offset (i, j) by d raises the total by 5 minus both distances times d |
| HoleFilling.MaximumPrinciple | baselineEToData/dataPreparer.c:284-321 | bounds on the known pixels of the first image bound the known pixels after any number of passes |
| HoleFilling.KeptForever | baselineEToData/dataPreparer.c:285-320 | water pixels and known pixels never change, through any number of passes |
| HoleFilling.KnownSetGrows | baselineEToData/dataPreparer.c:349-351 | every pixel known after m passes is known with the same value after m + n |
| HoleFilling.FixedIsTheDrop | baselineEToData/dataPreparer.c:238-240 | fixedPixels is the drop in missing land pixels and unfixablePixels is the number left |
| HoleFilling.WaterIsCounted | baselineEToData/dataPreparer.c:316-318 | waterPixels counts exactly the pixels that the mask calls water |
| HoleFilling.IdleIsIdentity | baselineEToData/dataPreparer.c:284-321 | a pass changes nothing if and only if its fixedPixels is 0 |
| HoleFilling.IdleForever | baselineEToData/dataPreparer.c:349-351 | after a pass that fixes nothing every later pass is the identity |
| HoleFilling.Converges | baselineEToData/dataPreparer.c:349-351 | as many passes as there are missing land pixels reach the fixpoint |
| RowWindow.ImageRoundTrip | baselineEToData/dataPreparer.c:202-217 | an image written behind the header is read back unchanged by the next pass |
| FillPassStream.Shift | baselineEToData/dataPreparer.c:261-266 | freeing the oldest row and shifting the pointers moves the window down one row, with no aliasing inside the image |
| FillPassStream.ReadRow | baselineEToData/dataPreparer.c:268-282 | a complete row enters the bottom slot of the window; a truncated file makes the program exit |
| FillPassStream.AddNeighbour | baselineEToData/dataPreparer.c:293-306 | reading a neighbour through the row pointers contributes what the image at its coordinates contributes |
| FillPassStream.Neighbours | baselineEToData/dataPreparer.c:289-308 | the loops over i and j compute the random-access weighted sums |
| FillPassStream.ScanRow | baselineEToData/dataPreparer.c:284-321 | the output buffer is the filled row and the three counters have counted exactly the pixels scanned so far |
| FillPassStream.ReadMaskRow | baselineEToData/dataPreparer.c:247-259 | the mask row at the computed offset decides land for every pixel of the image row; a short mask makes the program exit |
| FillPassStream.FillMissingPixels | baselineEToData/dataPreparer.c:174-335 | the streaming pass exits exactly on truncated files and otherwise writes, behind the header, the random-access stencil of the whole image, with its counters |
| Quantise.FindPixelRange | baselineEToData/dataPreparer.c:65-110 | the least and greatest valid pixels of the image, or the crossed initial values when none is valid; exits exactly on a truncated file |
| Quantise.RangeOfValidPixels | baselineEToData/dataPreparer.c:92-103 | pixels above 65528 play no part in the range |
| Quantise.ReduceBitDepth | baselineEToData/dataPreparer.c:113-172 | writes the reduced image, pixel by pixel, behind the header |
| Quantise.ReduceIsQuotient | baselineEToData/dataPreparer.c:106-157 | with N = max - min + 1 the truncated quotient is floor(256 (p - min) / N), always a byte |
| Quantise.ReducedPixel | baselineEToData/dataPreparer.c:150-158 | pixels above 65528 become the fill value, the others floor(256 (p - min) / N) |
| Quantise.ReduceMonotone | baselineEToData/dataPreparer.c:157-157 | a larger pixel never gets a smaller byte |
| Quantise.ReduceToFill | baselineEToData/dataPreparer.c:157-157 | a valid pixel becomes 255 if and only if 256 (p - min) >= 255 N |
| Quantise.RangeEnds | baselineEToData/dataPreparer.c:60-64 | the minimum maps to 0; the maximum maps to 254 if and only if 128 <= N < 256 and to the fill value if and only if N >= 256 |
| Quantise.ScaleBack | baselineEToData/README.md:57-57 | scaling a byte back falls short of the original pixel by at least 0 and less than one bucket |
| BaselineFile.CopyBytes | baselineEToData/dataPreparer.c:22-30 | on hosts of either byte order the value is written most significant byte first and nothing else changes |
| BaselineFile.SetHeader | baselineEToData/dataPreparer.c:35-58 | the 32 header bytes, on hosts of either byte order |
| BaselineFile.HeaderLayout | baselineEToData/README.md:40-46 | byte by byte, the header is laid out as documented |
| BaselineFile.HeaderRoundTrip | routes/baselineETo.ts:134-180 | the service accepts the preparer's header and reads its width, height and both floats out of it |
| BaselineFile.ReaderAcceptsIff | routes/baselineETo.ts:134-180 | the service takes exactly complete headers of version 1 and 8 bits, names what is wrong with others, and reads the documented fields |
| BaselineFile.PrepareData | baselineEToData/dataPreparer.c:337-354 | exits exactly on zero passes or truncated files; otherwise the final file holds the header of the pixel range and that many fillings of the reduced image |
| BaselineFile.ReadsItsPixel | routes/baselineETo.ts:79-105 | every place in the box of degrees of a pixel is answered from exactly that pixel, and rows outside the image are refused |
| BaselineFile.LongitudesCovered | routes/baselineETo.ts:84-84 | the columns cover 360 degrees, from -180 when the width is even and from half a pixel further east when it is odd |
| BaselineFile.EdgeReadsNextRow | routes/baselineETo.ts:84-90 | the longitudes left over are exactly 180 for even widths, answered from column 0 of the row below, and the half pixel east of -180 for odd ones, answered from the last column of the row above |
| BaselineFile.LatitudesCovered | routes/baselineETo.ts:85-90 | the accepted latitudes are 140 degrees wide and start less than a row below 80: above -60 up to and including 80 if and only if the height is a multiple of 7 |
| BaselineFile.PreparedPixelIsAnswered | routes/baselineETo.ts:100-104 | end to end from raw image through prepared file and header: every place in the box of a valid, unsaturated raw pixel is answered with its own daily ETo, less by under one bucket, up to the rounding error of the header floats |
| BaselineFile.AnswersBetweenSurvivors | baselineEToData/dataPreparer.c:284-321 | every answered place, filled ones included, is answered between the answers for the least and the greatest raw pixel that survive the reduction |
| BaselineFile.ShippedLayoutFits | baselineEToData/dataPreparer.c:6-14 | the compiled-in dimensions satisfy every assumption and the mask covers the image |
| OceanMask.PlaceIsJudgedByItsCell | baselineEToData/dataPreparer.c:14-14 | with an image cut out of the mask's map 10 degrees below its top, a pixel is land if and only if the one mask cell that contains its places says so, the mask's cells being counted in degrees from 180 west and 90 north |
| OceanMask.ShippedIsAligned | baselineEToData/dataPreparer.c:6-14 | the compiled-in dimensions are such a cut from a mask of 5400 rows |
| OceanMask.MaskDecidesAnswer | baselineEToData/dataPreparer.c:247-320 | end to end: a place without data of its own is refused for good where its mask cell says water, and answered on land after one pass once its known neighbours weigh 12 |
| BaselineFile.UnreadableIsRefused | routes/baselineETo.ts:79-98 | nothing is answered without a header or from beyond the end of the file |
| SoilMoisture.WaterIsConserved | routes/adjustmentMethods/SoilMoistureModel.ts:111-126 | over any days, starting bank plus effective rain is demand met, spill, gap drops and final bank; demand is met plus unmet |
| SoilMoisture.UnmetDemandEmptiesBank | routes/adjustmentMethods/SoilMoistureModel.ts:119-123 | unmet demand leaves an empty bank, and spill leaves a full one with all demand met |
| SoilMoisture.BankWithinCap | routes/adjustmentMethods/SoilMoistureModel.ts:122-123 | from cold start the bank always lies between 0 and the cap of the last advancing day, however the cap varies |
| SoilMoisture.StepRecordsItsLedger | routes/adjustmentMethods/SoilMoistureModel.ts:133-146 | the newest record holds the day's ledger within half a hundredth of an inch, with the state's date and scale; at most 90 records |
| SoilMoisture.ScaleIsUnmetShare | routes/adjustmentMethods/SoilMoistureModel.ts:124-126 | the scale is the unmet share of reference demand in percent, to the nearest integer, cut to the limit, and 0 without reference demand |
| SoilMoisture.StepMonotone | routes/adjustmentMethods/SoilMoistureModel.ts:94-126 | one wetter day: bank no smaller, scale no larger, gap between banks grown by at most the extra rain |
| SoilMoisture.MoreRainNeverWatersMore | routes/adjustmentMethods/SoilMoistureModel.ts:94-126 | over runs that differ in pointwise more rain: bank no smaller and scale no larger on every day, and the banks differ by at most the extra rain credited |
| SoilMoisture.NormalDaysReturnToFullWatering | routes/adjustmentMethods/SoilMoistureModel.ts:111-126 | from any reachable bank, rainless normal days empty it within ceil(rainBankCapDays) days and the scale is exactly 100 on every one after |
| StateStore.FileStateStore.Get | routes/state/StateStore.ts:43-46 | answers from memory once loaded, from the file before that |
| StateStore.FileStateStore.Set | routes/state/StateStore.ts:48-56 | reads see the new state whatever the flush does; the file is untouched or replaced by the whole map, never torn |
| StateStore.RestartSeesLastFlush | routes/state/StateStore.ts:13-18 | a restart after any run of writes serves exactly the memory right after the last successful flush |
| WaterBudget.CalculateWaterBudgetScale | routes/adjustmentMethods/WaterBudgetAdjustmentMethod.ts:126-255 | answer, raw data and stored state of a poll, whatever happens to the flush; other locations are untouched |
| WaterBudget.ParametersAreUsable | routes/adjustmentMethods/WaterBudgetAdjustmentMethod.ts:48-58 | whatever the variables and options hold, the model gets positive coefficients, a runoff of at most 1 and a non-negative cap |
| WaterBudget.AnswersHeldScale | routes/adjustmentMethods/WaterBudgetAdjustmentMethod.ts:36-38 | every answer is the scale held by the state, cut to a positive limit of the request and to no other, and a poll fails exactly when no state exists afterwards |
| WaterBudget.PollAnswers | routes/adjustmentMethods/WaterBudgetAdjustmentMethod.ts:138-195 | which polls fail, hold for failed or for incomplete weather, or show the locked day's record with a late budgetKc reported |
| WaterBudget.AdvancingPollSettlesDay | routes/adjustmentMethods/WaterBudgetAdjustmentMethod.ts:197-228 | bank, scale, date and record of an advancing poll from its options and variables: demand at budgetKc within 0.1 and 1.5, else the plant's or the budget's coefficient, reference from the baseline or its default, rain at the runoff share |
| WaterBudget.UndecidedDayIsShown | routes/adjustmentMethods/WaterBudgetAdjustmentMethod.ts:224-252 | a stored day without any decision is kept and shown with the poll's own numbers |
| WaterBudget.OnlyAdvancingPollsPersist | routes/adjustmentMethods/WaterBudgetAdjustmentMethod.ts:138-195 | failed weather, incomplete weather and later polls of the day with any budgetKc leave the state unchanged; the others advance it by one step |
| WaterBudget.RepollShowsTheDecision | routes/adjustmentMethods/WaterBudgetAdjustmentMethod.ts:182-195 | every later poll of a day shows the numbers and the held scale of the day's first advancing poll, whatever it asks for |
| WaterBudget.MaxScaleIsNeverPersisted | routes/adjustmentMethods/WaterBudgetAdjustmentMethod.ts:40-47 | runs that differ only in budgetMaxScale persist identical states |
| WaterBudget.HistoryIsChronological | routes/adjustmentMethods/SoilMoistureModel.ts:133-146 | from cold start, with dates that never go back, the history is the last 90 of all advancing decisions, strictly increasing in date, with the newest one's scale and date in the state |
| BudgetRace.DayIsCreditedOnce | routes/adjustmentMethods/WaterBudgetAdjustmentMethod.ts:138-228 | under every interleaving of polls that share a date, the persisted state is the starting state or exactly one step from it |
| BudgetRace.RaceMovesOneDaysWater | routes/adjustmentMethods/SoilMoistureModel.ts:105-126 | under every such interleaving the bank has moved by one poll's day of rain and demand, or not at all |
| BudgetRace.AdvancedPollsAnswerAlone | routes/adjustmentMethods/WaterBudgetAdjustmentMethod.ts:224-254 | every racing poll that went through the model answers as if it had been alone |
| BudgetRace.SoloRunIsPollOnce | routes/adjustmentMethods/WaterBudgetAdjustmentMethod.ts:126-255 | a poll that nobody interrupts gives the answer and leaves the store of the whole poll |
| BudgetRace.NeverRewindsIff | routes/adjustmentMethods/WaterBudgetAdjustmentMethod.ts:138-228 | from any state and with any number of polls, no schedule lowers the stored date if and only if the usable polls of the location share one date and the stored date is not later |
| BudgetRace.CrossMidnightWriterRewinds | routes/adjustmentMethods/WaterBudgetAdjustmentMethod.ts:160-228 | of any two usable polls with different dates the earlier one can read first and write last, from any state that stores neither date: the state is rewound and the new day may advance again |
| BudgetMemory.AlikeAnswers | routes/adjustmentMethods/WaterBudgetAdjustmentMethod.ts:126-255 | states that agree in bank, date, scale and newest decision give the same answer to every poll and stay so |
| BudgetMemory.ReplayOneMore | routes/adjustmentMethods/SoilMoistureModel.ts:111-117 | replaying the polls since the last gap reset alone keeps up with the budget, poll by poll |
| BudgetMemory.DayIsForgottenIff | routes/adjustmentMethods/SoilMoistureModel.ts:111-126 | the weather amounts of one day make no difference to the budget any more, whatever they were, if and only if the days since lead from an empty and from the fullest bank to the same budget |
| Fallback.BuildFallbackChain | routes/weatherProviders/FallbackWeatherProvider.ts:61-72 | the loop builds the chain that the next two rows describe |
| Fallback.ExtendedChain | routes/weatherProviders/FallbackWeatherProvider.ts:57-72 | the chain starts with the primary, repeats nobody and holds exactly the primary and the known providers |
| Fallback.ExtendedKeepsKeyOrder | routes/weatherProviders/FallbackWeatherProvider.ts:57-72 | fallbacks stand in the order of their keys |
| Fallback.FallbackWeatherProvider.Run | routes/weatherProviders/FallbackWeatherProvider.ts:116-130 | providers are asked in order, each at most once, up to the first outcome that is not an eligible failure or the last; that outcome is returned or thrown |
| Fallback.StopIsFirst | routes/weatherProviders/FallbackWeatherProvider.ts:118-128 | everyone before the settling provider failed eligibly, and it did so itself only if it is the last |
| Fallback.SettledOutcome | routes/weatherProviders/FallbackWeatherProvider.ts:116-130 | the settling provider's outcome is the call's, its position is recorded if it returns, and the reason is that of the last failure passed over |
| Fallback.EligibleIff | routes/weatherProviders/FallbackWeatherProvider.ts:14-32 | exactly five coded errors, five network errors and messages that say "timed out" in small or capital letters are eligible |
| Fallback.DescriptionNamesError | routes/weatherProviders/FallbackWeatherProvider.ts:74-79 | equal reasons mean the same coded or network error |
| Fallback.BypassAlwaysHasReason | routes/weatherProviders/FallbackWeatherProvider.ts:101-114 | over any sequence of calls, a served fallback comes with a defined reason |
| Fallback.SingletonIsBare | routes/weather.ts:88-96 | a chain of one behaves like the bare provider and never reports a fallback |
| Fallback.CoversIffPrefix | routes/weatherProviders/FallbackWeatherProvider.ts:116-130 | a second chain returns whatever a first one does, for all provider outcomes, if and only if the first is a prefix of the second |
| Skips.SkipsAreMonotone | routes/skips/WeatherSkips.ts:33-52 | worse readings never stop a guard from firing, and nothing fires without readings |
| Skips.ForceRainOnlyAddsRain | routes/skips/WeatherSkips.ts:68-85 | the restriction bit enables the rain rule and changes no other |
| Skips.GuardsFireIff | routes/skips/WeatherSkips.ts:33-85 | the configured guards fire exactly on readings at or beyond the limits that request and environment set, and name the first of freeze, wind and rain with its reading and limit |
| WateringService.Server.GetWateringData | routes/weather.ts:541-559 | malformed stations are refused before anything is computed; otherwise the decision and the new state |
| WateringService.Server.ComputeWateringDecision | routes/weather.ts:378-439 | the request's result and the new caches and budgets, as one pipeline step |
| WateringService.Server.Compute | routes/weather.ts:390-419 | hit, or compute, annotate and perhaps store |
| WateringService.Server.CalculateWateringScale | routes/weather.ts:400-402 | the method's answer and the flags left by its provider calls |
| WateringService.Server.ApplyWeatherSkips | routes/skips/SkipGuard.ts:65-81 | the input itself unless a guard fires on memoized or fetched weather |
| RequestHandling.ParamBits | routes/weather.ts:379-382 | the low seven bits are the method, the eighth the restriction |
| RequestHandling.StationIff | routes/weather.ts:335-348 | which options name a station, a bare key or nothing, and which are refused with which error |
| RequestHandling.ProviderSelection | routes/weather.ts:81-97 | who comes first in local mode, for a station, for a selected or unknown provider, and exactly who follows |
| RequestHandling.ManualAnswer | routes/weather.ts:400-403 | the manual method asks nobody and has no scale |
| RequestHandling.WateringDataAnswer | routes/weather.ts:400-413 | Zimmerman and rain delay answer from the watering data of the provider that settles the call, with a bypassed station noted |
| RequestHandling.EToAnswer | routes/weather.ts:400-413 | the ETo method refuses unusable options unasked and answers from that provider's data with the first forecaster's forecast where one can be used |
| RequestHandling.BudgetMethodAnswer | routes/weather.ts:400-413 | the water budget answers and persists the poll with that provider's weather, or its failure |
| RequestHandling.RefusedRequests | routes/weather.ts:379-383 | unknown methods and malformed stations are refused with their errors and change nothing; a method's failure is passed on |
| RequestHandling.DecisionReports | routes/weather.ts:422-438 | a decision names its method, and a station counts as bypassed exactly where a fallback served in its place |
| DecisionRuns.CacheHoldsOwnAnswers | routes/weather.ts:411-418 | in every run each cache entry is exactly an earlier method answer for its key, without overlay or bypass metadata and not served by a fallback |
| DecisionRuns.MissIsStoredIff | routes/weather.ts:414-418 | an answer that missed the cache is stored, until the end of the local day, if and only if its primary allows that and no fallback served it |
| DecisionRuns.HitReproducesStoredAnswer | WateringScaleCache.ts:22-53 | a hit reproduces, before the overlay, the method's answer to an earlier request for the key, on the local day of the store, which is the day it was asked if and only if no day ended in between |
| DecisionRuns.KeyDeterminesProviders | WateringScaleCache.ts:55-62 | a cache key belongs to one request, hence to one station and one provider chain |
| DecisionRuns.DecisionIsOwnAnswerOrSkip | routes/weather.ts:420-438 | in every reachable state a decision is the own answer untouched or scale 0 with a reason; restricted holds exactly when asked for and a guard fired, and implies scale 0 |
| DecisionRuns.CacheablePrimaryOnlyIff | routes/weatherProviders/FallbackWeatherProvider.ts:149-170 | apart from the water budget, cacheable answers hold the primary's data alone, for all provider outcomes, if and only if the ETo method has no foreign forecaster whose forecast it can use |
| ServiceBudget.ServiceBudgetIsPollRun | routes/adjustmentMethods/WaterBudgetAdjustmentMethod.ts:126-255 | after any run of the service each location's budget is exactly that of its advancing polls alone, run from cold start on the data that they were served |
| ServiceBudget.BudgetIsReplay | routes/adjustmentMethods/SoilMoistureModel.ts:111-117 | after any run a location's budget is, for all that a poll can see, that of its advancing polls since the last gap reset alone |
| ServiceBudget.MemoryDecidesAnswer | routes/adjustmentMethods/WaterBudgetAdjustmentMethod.ts:126-255 | runs with the same advancing polls since the last gap reset answer a poll the same, whatever else the providers returned |
| ServiceBudget.BudgetSourcesAreServers | routes/adjustmentMethods/SoilMoistureModel.ts:111-117 | the recorded sources of a budget are exactly the providers that served its advancing polls since the last gap reset |
| ServiceBudget.BudgetPrimaryOnlyIff | routes/weather.ts:414-418 | over any run, the water budget's cacheable answers hold the primary's data alone if and only if the primary served every poll that advanced the location's budget since its last gap reset |
| DecisionRuns.StoredAnswerLasts | WateringScaleCache.ts:22-53 | a stored answer stays while its own requests come before it expires, whatever else is served meanwhile |
| ServiceBudget.HoldKeepsBudgetIff | routes/weather.ts:414-418 | with a cacheable primary and weather of a new date to be had, an answered poll that missed the cache keeps the budget from advancing under every later run of that local day in which only the same request polls it, if and only if no fallback served it and it did not advance the budget itself |
| ServiceBudget.HeldFallbackScaleIsCached | routes/weather.ts:414-418 | two polls after which the cache holds an answer made of a fallback's data |
| SkipMemo.MemoHoldsFetchedWeather | routes/skips/SkipGuard.ts:41-58 | in every run each memo entry was fetched by an earlier request with its key and expires one TTL later; failures are never kept |
| SkipMemo.MemoKeyIff | routes/skips/SkipGuard.ts:25-35 | two requests share an entry if and only if they agree in provider class, selected provider, place to four decimals and station, "nopws" and "pwskey" passing for none and for an API key |
| SkipMemo.NopwsCollides | routes/skips/SkipGuard.ts:25-35 | a station called "nopws" does share the entry of requests without a station |
| SkipMemo.MemoKeyChains | routes/skips/SkipGuard.ts:25-35 | with equal memo keys, stations have one primary and so have the others; bare, or with the same fallbacks asked for, they go to one chain |
| SkipMemo.MemoGivesOwnWeather | routes/skips/SkipGuard.ts:41-58 | in every run, if earlier requests with the memo key made the same call to prefixes of the request's chain, its guards get what its own call returned at most one TTL ago, or nothing when it now returns nothing |
| SkipMemo.MemoIsTransparentIff | routes/skips/SkipGuard.ts:41-58 | of two requests with one memo key the second gets only what its own call returned, for all provider outcomes, if and only if both make the same call and the first chain is a prefix of the second |
| SkipMemo.MemoShowsForeignWeather | routes/skips/SkipGuard.ts:41-58 | otherwise there is a world in which the second request's own call fails altogether and its guards are still given weather |
| SkipMemo.ReportedFlagsFollowLastCall | routes/weather.ts:434-435 | with enabled guards, servedFallback reports who served the guards' weather if they fetched any, else who served the method |
| SkipMemo.SkippedIff | routes/skips/SkipGuard.ts:65-81 | in every reachable state an answered request is skipped with scale 0 if and only if its guards are given weather and the freeze, wind or rain rule fires on it, and the reason is the first of these |
| SkipMemo.MemoAnswersForTtl | routes/skips/SkipGuard.ts:41-58 | fetched weather is given to all requests with the key for one whole TTL |
| SkipMemo.Fixed4IsClose | routes/skips/SkipGuard.ts:32-32 | keys hold coordinates to the fourth decimal |
| ForecastCache.Cache.Get | routes/weatherProviders/ForecastCache.ts:42-51 | answers like a log that never evicts |
| ForecastCache.Cache.Set | routes/weatherProviders/ForecastCache.ts:65-67 | the key's latest fetch is replaced, and nothing else |
| ForecastCache.GetForecastData | routes/weatherProviders/local.ts:357-442 | with a clock that never goes back, eviction is unobservable: result, upstream call and latest fetches are those of a service that never evicts |
| ForecastCache.AnswersAreLatestFetch | routes/weatherProviders/local.ts:365-441 | every answer is the last successful upstream data for its key, within the stale window, and fresh when upstream was not called |
| ForecastCache.FreshEntryShieldsUpstream | routes/weatherProviders/local.ts:365-371 | upstream is not called exactly while the latest fetch is fresh, and a call fails exactly when upstream does and nothing usable is left |
| Geocoder.CachingGeocoder.EnforceCacheSizeLimit | routes/geocoders/Geocoder.ts:77-85 | the loop keeps exactly the newest entries up to the limit |
| Geocoder.CachingGeocoder.SetCacheEntry | routes/geocoders/Geocoder.ts:67-75 | a new entry goes last and the oldest make room, a known one is updated in place; over-long locations are not kept |
| Geocoder.CachingGeocoder.GetLocation | routes/geocoders/Geocoder.ts:89-115 | the answer, the call made if any, and the cache afterwards |
| Geocoder.SavedCacheIsRestored | routes/geocoders/Geocoder.ts:45-48 | a saved cache is restored with the same entries in the same order |
| Geocoder.CachingIsInvisible | routes/geocoders/Geocoder.ts:89-115 | when found and not-found depend on the location alone, every answer is that of uncached geocoding, or an error that this lookup met |
| Geocoder.LookupIsRemembered | routes/geocoders/Geocoder.ts:63-115 | a definite answer for a location of at most 200 characters, found or not, is given to the next lookup without a call, and nothing else is kept |
| Geocoder.PutIsFound | routes/geocoders/Geocoder.ts:73-73 | setting an entry changes what is found for its location and for no other |
| Geocoder.CacheIsLastInsertions | routes/geocoders/Geocoder.ts:67-85 | the cache is exactly the last insertions in order, negative entries included, and never exceeds its limit |
| Geocoder.OverlapIsInvisible | routes/geocoders/Geocoder.ts:89-115 | however lookups overlap between look and insertion, what a look finds is the world's answer and the cache keeps its limit |
| LegacyWire.UndoReplaceChar | routes/weather.ts:638-641 | no match of the decoder can straddle a word that the encoder inserted |
| LegacyWire.DecodeForgetsEncoding | routes/weather.ts:626-645 | decoding an encoded text in any order gives what decoding the text itself in that order gives |
| LegacyWire.RoundTripIff | routes/weather.ts:626-645 | in every order of undoing the escapes, decoding inverts encoding if and only if the text is free of `+`, of the two characters `\n` and of AMPERSAND |
| LegacyWire.DecodedIsClean | routes/weather.ts:626-631 | whatever is on the wire, the decoder's output is free of all three, in every order |
| LegacyWire.EncodedIsInert | routes/weather.ts:626-631 | an encoded text has no separator, space or line break |
| LegacyWire.EncodeTextIsCharwise | routes/weather.ts:626-641 | the three replacements never meet: every character is escaped for itself |
| LegacyWire.FormatLegacyWateringData | routes/weather.ts:615-624 | the loop writes the defined properties in order |
| LegacyWire.ResponseRoundTrip | routes/weather.ts:614-645 | a response split at `&` has exactly one entry per field with a value, in order and with its key: scalars as printed, and texts and JSON that decode to themselves in every order if and only if they are clean |
| RainGauge.CreditsTelescope | routes/weatherProviders/local.ts:138-152 | credited rain is newest reading minus baseline plus the readings just before each reset, for any resets and missing readings |
| RainGauge.CreditsAreNonNegative | routes/weatherProviders/local.ts:73-80 | gauges that never read below zero never credit negative rain |
| RainGauge.CountIsTakenIff | routes/weatherProviders/local.ts:111-131 | a report's rain count is taken if and only if it is a number that is not below zero, and -9999 never is |
| RainGauge.LocalStation.Capture | routes/weatherProviders/local.ts:132-157 | the queue and last count stay in step with the full record of reports |
| RainGauge.LocalStation.FilterQueue | routes/weatherProviders/local.ts:176-179 | the queue is exactly the last day of all reports ever captured |
| RainGauge.LocalStation.AccumulatedPrecip | routes/weatherProviders/local.ts:290-310 | the total over the last day of all reports |
| RainGauge.WindowTotalIsCredit | routes/weatherProviders/local.ts:290-310 | that total is the credit of the readings inside the window, counted from the last reading before it |
| RainGauge.PrecipOfLastDay | routes/weatherProviders/WUnderground.ts:149-197 | with hours in order, the two loops accumulate the window's readings from the last one before it |
| RainGauge.WindowOfYesterday | routes/weatherProviders/WUnderground.ts:159-166 | the window is yesterday's hours from the given instant on, counted from the last hour before it |
| RainGauge.DeltaIsNeverNegative | routes/weatherProviders/WUnderground.ts:153-157 | no reading takes rain away |
| RainGauge.NullsRecredit | routes/weatherProviders/WUnderground.ts:153-157 | without absent readings the total is the local station's credit of the same readings plus the counter before each gap of nulls that it does not fall behind |
| RainGauge.AccumulatorsAgreeIff | routes/weatherProviders/WUnderground.ts:153-157 | on one starting reading both accumulators credit the same rain if and only if after every gap the gauge is below its last reading or that was 0 |
| RainGauge.TotalIsFiniteIff | routes/weatherProviders/WUnderground.ts:153-157 | the total is a number if and only if no reading of the window lacks its key; nulls do not spoil it |
| RainGauge.PrecipOfSamples | routes/weatherProviders/WUnderground.ts:28-43 | fewer than 24 hours are refused; otherwise the rises over the last 24 are summed, absent readings adding nothing and nulls acting as 0 |
| RainGauge.TotalsDifferAtResets | routes/weatherProviders/WUnderground.ts:36-43 | on one list of readings the two formulas of the provider differ by exactly the readings that follow a fall of the counter |

## Left out

- Transcendental formulas: `calculateETo`, `hargreavesEto`, solar positions and the seasonal crop coefficient are parameters.
- HTTP, Express handlers, provider JSON parsing, MQTT, the dashboard, log redaction and error-code tables.
- IEEE rounding in the budget; the header floats enter with a relative error, and how a float is encoded is a parameter.
- 32-bit wrap-around of the preparer's offsets and counters, and its progress messages; a run that exits leaves a partial output file that is not modelled.
- JSON serialisation: the state file is a map or torn text, and cache keys are records instead of joined strings.
- Key expiry inside node-cache: an entry lives until the end of its local day, so a store in the last second of a day (a TTL of 0) is not covered.
- Time-zone and calendar libraries: a local date is a number.
- String details: location normalisation is a parameter, fallback lists and flag variables arrive parsed, reason texts are constructors without their numbers.
- Concurrency other than that of budget polls and geocoder lookups: overlapping forecast fetches and decisions are sequential here.
- `convertToLegacyFormat` and its size trimming, temperatures, humidity, wind and solar radiation of the station providers.
- Geocoder.CachingIsInvisible: lookups run one after the other on a service that answers definitely or with a passing error; overlapping ones are those of `Geocoder.OverlapIsInvisible`.
- WaterBudget.CalculateWaterBudgetScale: the provider name, the watering data and the wording of reasons in an answer are not modelled.
- RainGauge.TotalsDifferAtResets: compares the two formulas on one list, while the two requests read different feeds.
- WaterBudget.HistoryIsChronological: asks for polls whose local dates do not go back.
- ForecastCache.GetForecastData: asks for a clock that does not go back between operations.
