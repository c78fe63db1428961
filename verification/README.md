# Individual mobility model: a Dafny model of its core rules

The individual mobility model repository turns geotagged tweets into individual mobility. The pipeline has four stages:

1. Home, work and trips are detected for each user.
2. A preferential-return trajectory generator is fitted to each user.
3. Synthetic visits are sampled.
4. The resulting origin-destination matrices (ODMs) are compared with ground truth. The comparison uses Kullback-Leibler divergence over distance bins, iterative proportional fitting (IPF) of a gravity model, and SpSSIM.

Beside the Python code, a set of Go tools ingests tweet archives, detects home locations from geohash bins, clusters visits and generates repository code.

This project models the deterministic core of those stages as pure Dafny functions over immutable sequences:

- Pandas frames become sequences of records.
- Masses and shares are `real`.
- Timestamps are integer seconds.

Every input the code does not compute itself becomes a function-valued parameter or an explicit input:

- **Random draws:** the uniform draw `r`, the sampled index and the daily count.
- **Transcendental functions:** `exp`, `pow`, `log10`, the haversine distance and the bearing.
- **External algorithms:** DBSCAN and time-zone look-ups.

Division by zero is modelled as an error or as `None`. That covers pandas' NaN/inf, Python's `ZeroDivisionError` and Go's NaN.

One Dafny module per source area:

- **Common:** sums, filters, counts, shares and sorting helpers.
- **Grouping:** Go's map-based grouping and `strings.Split`.
- **DistanceMetrics** and **KlMerge:** `compute`, `distance_cut` and `kullback_leibler` of `lib/validation.py`. The bin merge is modelled exactly as written.
- **Gravity:** `ipf` and `GravityModel` of `src/py/validation.py`.
- **VisitOdm:** `src/py/genericvalidation.py`.
- **OdSimilarity:** `src/py/odm_similarity.py`.
- **Models** and **LegacyModels:** the preferential-return generator of `lib/models.py` and its older version `src/py/models.py`.
- **Activity**, **Archive** and **Trips:** home, work and trip detection in `lib/helpers.py`, `src/py/mscthesis.py`, `src/py/activitiesdf.py`, `src/py/archive.py` and `src/py/trips.py`.
- **Odm**, **TweetFilter**, **Downsample**, **VisitsDescribe**, **Radiation**, **Pipeline**, **ResultComp**, **Survey** and **SpSsim:** the smaller scripts and helpers.
- **Ingest** and **LegacyIngest:** the two Go versions of `jsonAsUser`/`parseJSON`/`groupByUser`.
- **UserLocation:** `src/go/cmd/userlocation/main.go`.
- **ClusterVisits:** `src/go/internal/locations/visits.go`.
- **Repogen:** `src/go/internal/repogen/table.go` and `astType`.

Two behaviours of the code that a reader may not expect:

- **A fully disjoint single bin.** For ground truth `[1, 0]` against model `[0, 1]`, both positions are merged (lib/validation.py:193-195). The series fold into one bin `[1]` against `[1]`, so the divergence is `log10(1) = 0` (`DistanceMetrics.DisjointUnitBinsScoreZero`). The sentinel 999 of lib/validation.py:224 is not reached.
- **IPF on a zero row or column sum.** numpy divides by zero there, and the NaNs spread through the later iterations (src/py/validation.py:199-202). The model returns an error result instead (`Gravity.IpfStep`).

## Model

| member | source | states |
|---|---|---|
| Activity.WorkHoursAreWeekdays | src/py/activitiesdf.py:46-49 | The business-hours test `hour > 6 or hour < 19` accepts every hour, so a row passes `during_work` iff its weekday is 1..5. src/py/archive.py:5-8 has the same test. |
| Activity.DuringWork | src/py/archive.py:5-8 | Keeps a row iff it is in the input and passes the work-hours test. |
| Activity.DuringHome | lib/helpers.py:152-159 | Keeps a row iff it is in the input and is a weekend row, or a weekday row before the window's start or after its end. The window is 9/17 here and in src/py/mscthesis.py:33-40, 10/17 in src/py/activitiesdf.py:22-26, and 9/18 in src/py/archive.py:34-38. |
| Activity.Top | src/py/archive.py:53-55 | `nlargest(k)` keeps min(k, n) of the tallies, all taken from the input. |
| Activity.TopDominates | src/py/archive.py:97-99 | A tally left out of `nlargest(k)` never counts more than one that is kept. |
| Activity.TopSortedDistinct | src/py/archive.py:53-55 | `nlargest` lists distinct regions by non-increasing count. |
| Activity.TopRegionIsMostCounted | lib/helpers.py:174-178 | A user has no top region iff no region has a home-hour row. Otherwise the top region has a row, no region has more rows, and every lower-numbered region has strictly fewer (`nlargest(1)` keeps the first of equal counts). |
| Activity.LabelHome | lib/helpers.py:162-182 | Only the labels change. A row is labelled home iff its region is its user's most visited home-hour region; every other row is labelled other. src/py/mscthesis.py:43-63 is the same. |
| Activity.OneHomePerUser | src/py/mscthesis.py:53-63 | Two home rows of one user lie in the same region, and a user without home-hour rows has no home row. |
| Activity.LabelHomeKeeping | src/py/activitiesdf.py:29-43 | The rows of each user's top home-hour region (10/17 window) are relabelled home; all other rows keep their label. |
| Activity.InHomePeriodIffBracketed | lib/helpers.py:195-199 | A row is inside its user's home period iff some home row of the user is no later and some home row is no earlier. |
| Activity.RemoveTweetsOutsideHomePeriod | lib/helpers.py:185-201 | Keeps a row iff it lies between its user's earliest and latest home row, inclusive. src/py/mscthesis.py:66-80 is the same. |
| Activity.KeepHomePeriod | src/py/mscthesis.py:75-80 | The same per-row criterion applied to any subset of the rows, with the periods taken from all rows. |
| Activity.WorkPickIsBestOther | src/py/activitiesdf.py:59-65 | Over the weekday tallies, the pick fails iff there are no tallies. It skips iff the home region is the only one. Otherwise it is a non-home region that no other non-home region outcounts. |
| Activity.WorkChoiceFails | src/py/activitiesdf.py:58-65 | A user's work choice fails iff the user has no home row (`iloc[0]`) or no weekday row (empty `workidxs`). |
| Activity.WorkChoiceSkips | src/py/activitiesdf.py:62-64 | The user is skipped iff the home region has weekday rows and no other region has any. |
| Activity.WorkChoiceIsBestNonHome | src/py/activitiesdf.py:59-66 | A chosen work region is never the home region. It has weekday rows, and no non-home region has more. |
| Activity.LabelWork | src/py/activitiesdf.py:52-70 | The call fails iff some user's choice fails. Otherwise rows keep their place, and exactly the rows of each user's chosen work region become work. |
| Archive.OverlapsSymmetric | src/py/archive.py:41-42 | Strict interval overlap is symmetric. |
| Archive.Latest | src/py/archive.py:88-89 | Returns one of its arguments, the one that starts no earlier. It returns the first iff the first starts strictly later (or both are equal). |
| Archive.PairRows | src/py/archive.py:57-58 | Only user u's rows of region r are kept. |
| Archive.PairRowsComplete | src/py/archive.py:57-58 | Every row of user u in region r is among the pair's rows. |
| Archive.InsertById | src/py/archive.py:51 | Inserting into rows in tweet-id order keeps that order and adds exactly the new row. |
| Archive.SortById | src/py/archive.py:51 | The rows come out in non-decreasing tweet-id order, as a permutation of the input. |
| Archive.PairTimesByTweetId | src/py/archive.py:51-58 | The times a candidate's period is taken from are those of exactly user u's rows in region r, each once, in tweet-id order. |
| Archive.Trimmed | src/py/archive.py:62-66 | With fewer than 10 home-hour rows, all rows of the pair are used. Otherwise ⌊size/10⌋ rows are cut from each end, in order. |
| Archive.CandidateOf | src/py/archive.py:61-69 | A candidate keeps its region and size, and its start is no later than its end. Its period comes from the pair's rows in tweet-id order. |
| Archive.CandidateWithinRows | src/py/archive.py:64-68 | The trimmed home period lies within the span of the pair's rows. |
| Archive.Candidates | src/py/archive.py:53-56 | At most three candidates, none empty, and none iff the user has no home-hour row. |
| Archive.KeptHomes | src/py/archive.py:70-81 | The largest candidate is always kept, and every kept home is a candidate. |
| Archive.KeptHomesDisjoint | src/py/archive.py:74-80 | Kept homes never overlap, and every kept home but the largest lasts at least 30 days. |
| Archive.ThirdDroppedByDroppedSecond | src/py/archive.py:78-80 | A concrete input: a third candidate overlaps a second that was already dropped as short, so it is dropped as well. This happens although it overlaps no kept home and lasts 30 days. |
| Archive.LabelMultipleHomes | src/py/archive.py:47-86 | Rows keep their place. A row becomes home iff its region is among its user's kept homes; other rows keep their label. |
| Archive.CurrentHomeIsLatestKept | src/py/archive.py:115-124 | The current home is one of the homes `label_multiple_homes` keeps, and no kept home starts later. |
| Archive.CurrentHomeAmongMultiple | src/py/archive.py:91-128 | A user gets a current home iff the user has a home-hour row, and that home is among the kept homes. |
| Archive.LabelCurrentHome | src/py/archive.py:91-128 | Rows keep their place. A row becomes home iff its region is its user's current home; other rows keep their label. |
| Archive.FirstNonHomeIsBest | src/py/archive.py:18-28 | The first non-home region of the top tallies is no home region and is counted. No non-home region outcounts it. |
| Archive.ArchiveWorkIsBestNonHome | src/py/archive.py:17-28 | The archive's work region is no home region and has weekday rows. Every non-home region has at most its weekday row count. |
| Archive.LabelWorkArchive | src/py/archive.py:11-32 | Rows keep their place. Exactly the rows of each user's work region become work, and a user without one is left alone. |
| DistanceMetrics.Compute | lib/validation.py:160-177 | Fails iff `odms` and `titles` differ in length or a group names a missing position. Otherwise there is one row per group, the columns are `<title>_sum`, and each cell is that ODM's mass over the group's positions. |
| DistanceMetrics.ComputeConservesMass | lib/validation.py:166-177 | When the groups partition the positions, each `_sum` column adds up to its ODM's total. |
| DistanceMetrics.DistanceCut | lib/validation.py:149-152 | On the national scale, cells under 100 km are zero. The result sums to 1 and is proportional to the kept cells. A zero total is an error. Distances that do not align with the cells are an error on the national scale only, the one scale that reads them. src/py/validation.py:141-145 is the same. |
| DistanceMetrics.DropEmptyBinsKeepsMass | lib/validation.py:188 | Dropping the bins that are zero in both series keeps each series' mass. |
| DistanceMetrics.KullbackLeibler | lib/validation.py:179-186 | Fails unless exactly two titles are given and both `_sum` columns exist, and succeeds whenever they are. It is then the divergence of those two columns. |
| DistanceMetrics.ZeroOnlyInLastMergedBin | lib/validation.py:188-224 | After merging, a zero can only be the last bin of either series, and only when the final run reaches the last bin. A zero in the model series gives 999. |
| DistanceMetrics.NoZeroBinsNoMerge | lib/validation.py:193-199 | Without zero bins the result is Σ gt·log10(gt/model) over all bins. |
| DistanceMetrics.IdenticalSeriesScoreZero | lib/validation.py:221-222 | Identical series without zero bins score 0. |
| DistanceMetrics.AllZeroScoresZero | lib/validation.py:188 | All-zero columns leave empty series, which score 0. |
| DistanceMetrics.DisjointUnitBinsScoreZero | lib/validation.py:190-224 | Ground truth [1, 0] against model [0, 1] merges into one bin and scores 0, not 999. |
| KlMerge.MergePositions | lib/validation.py:190-195 | The sorted merge set: every zero position, plus the next position of each zero (the previous one for a zero in the last bin). It has no repeats. |
| KlMerge.NegativePositionOnlyForSingleBin | lib/validation.py:195 | Position -1 enters the merge set only for a single bin that is zero in one series. |
| KlMerge.MergeSeries | lib/validation.py:200-220 | The `while` loop produces the series the merge plan prescribes (copy the gaps, fold each run). |
| KlMerge.MergedSeriesMass | lib/validation.py:197-220 | The merged series carries exactly the mass of bins 0..max(merge set); later bins are dropped. |
| KlMerge.MergedBinsPositive | lib/validation.py:193-220 | Every merged bin but the last is positive. The last is positive too unless the final run reaches the last input bin. |
| KlMerge.MergeSetLeavesPositiveBins | lib/validation.py:193-196 | A run ending before the last bin ends on a bin that is nonzero in both series. |
| KlMerge.SingleBinMerge | lib/validation.py:196-220 | A single zero bin passes through unchanged, because `d[0:-1]` is empty and `d[-1:1]` is the bin. |
| KlMerge.DroppedTailBin | lib/validation.py:197-220 | A concrete input where mass is lost: [0, a, b] against [c, e, f] merges to [a] and [c+e], so bin 2 is dropped. The corrected merge keeps it. |
| KlMerge.LeadingPairMerges | lib/validation.py:200-220 | With merge set {0, 1} the first two bins fold into one and nothing after them is emitted. |
| KlMerge.IntendedMergeConservesMass | lib/validation.py:197-220 | The corrected merge (the tail after the last run appended) conserves each series' mass. |
| Gravity.IpfStep | src/py/validation.py:199-202 | One iteration is the row step and then the column step. A margin whose length differs from the matrix's is an error, and so is a zero sum. numpy's broadcasting of length-1 operands is not modelled. |
| Gravity.RowStepMargins | src/py/validation.py:199-200 | After the row step, row i sums to `row_margin[i]`. |
| Gravity.ColStepMargins | src/py/validation.py:201-202 | After the column step, column j sums to `column_margin[j]`. |
| Gravity.IpfStepMargins | src/py/validation.py:199-202 | A successful iteration fits the rows after its row step and the columns at its end. |
| Gravity.IterateColumnMargins | src/py/validation.py:198-204 | Every iterate after the seed meets the column margins. |
| Gravity.IpfStepNonNegative | src/py/validation.py:199-202 | Non-negative entries and margins stay non-negative. |
| Gravity.IterateNeverFails | src/py/validation.py:198-204 | From a positive seed with positive margins no iteration fails and entries stay positive. |
| Gravity.CloseIffMax | src/py/validation.py:203-206 | The largest absolute change is below the tolerance iff every change is. |
| Gravity.Fit | src/py/validation.py:198-209 | Runs 1..max_iter iterations. It stops early only after an iteration whose index is divisible by 10 and that changed nothing by the tolerance or more, and no earlier iteration met that test. |
| Gravity.Ipf | src/py/validation.py:195-212 | With max_iter = 0 the seed is returned unchanged. Otherwise the result is the last iterate, it meets the column margins, and a positive seed with positive margins always succeeds. |
| Gravity.GravitySeed | src/py/validation.py:165-166 | `exp(-beta·d)` entry by entry, with the same shape as the distances. |
| Gravity.GravitySeedDecays | src/py/validation.py:165-166 | A larger distance gets a smaller seed weight (beta > 0, exp increasing). |
| Gravity.GravityMargins | src/py/validation.py:179-184 | Production is the padded origin totals. Attraction is the padded destination totals rescaled so that both have the same total. |
| Gravity.GravitateAsWritten | src/py/validation.py:168-192 | Production goes into ipf's column slot. Column totals of the result are therefore production. A non-square demand matrix with at least two origins and two destinations fails. |
| Gravity.GravitateAsWrittenMissesAttraction | src/py/validation.py:186 | On a concrete one-way demand matrix the fitted destination totals are not the attractions. |
| Gravity.Gravitate | src/py/validation.py:168-192 | The corrected slots: column (destination) totals are the attractions. It always succeeds on non-negative demand with a positive seed. |
| Gravity.GravitateMeetsAttraction | src/py/validation.py:179-195 | With the corrected slots every iterate exists and meets the attractions. |
| VisitOdm.CheckMetres | src/py/genericvalidation.py:13-14 | Passes iff every axis unit is "metre". |
| VisitOdm.RegionZonedMembers | src/py/genericvalidation.py:52-54 | A region-visit is aligned iff the first visit of its (user, region) pair lies in a zone, and then it carries that zone. |
| VisitOdm.PairSharesZone | src/py/genericvalidation.py:52-54 | Two visits of one (user, region) pair get the same zone or are both dropped. |
| VisitOdm.PointZoned | src/py/genericvalidation.py:58-64 | With no point-visit nothing comes out of the point branch. |
| VisitOdm.SortVisits | src/py/genericvalidation.py:67-75 | Orders by (user, day, time slot) and is a permutation. |
| VisitOdm.AlignVisits | src/py/genericvalidation.py:48-77 | The aligned region-visits and point-visits, each once, in chronological order. |
| VisitOdm.DenseCounts | src/py/genericvalidation.py:81-84 | One count per zone pair: the consecutive same-user visits from o to d, 0 when there are none. |
| VisitOdm.PairCountSameUser | src/py/genericvalidation.py:81-83 | Visits that always change user between neighbours make no pair. |
| VisitOdm.PairCountSplit | src/py/genericvalidation.py:81-83 | Counts are per user: two users' visits joined end to end count separately. |
| VisitOdm.Proportions | src/py/genericvalidation.py:85 | Fails iff every count is 0. Otherwise the result sums to 1 and is proportional to the counts. |
| VisitOdm.ZonePairCountsZero | src/py/genericvalidation.py:84 | The dense counts are all zero iff no counted pair lies in zones × zones. |
| VisitOdm.AlignedOdm | src/py/genericvalidation.py:80-86 | Fails iff no counted pair lies inside the zones. Otherwise the result sums to 1 and is proportional to the dense counts. |
| VisitOdm.VisitsToOdm | src/py/genericvalidation.py:89-93 | Alignment followed by the ODM: an error iff no aligned pair lies inside the zones, otherwise it sums to 1. |
| OdSimilarity.FillEntries | src/py/odm_similarity.py:37-43 | Each cell holds the value of the last nonzero row naming it, or 0 when there is none. |
| OdSimilarity.OdMatrix | src/py/odm_similarity.py:25-44 | An n×n matrix over the indexed zones. A nonzero row with an unknown zone is an error. |
| OdSimilarity.BalanceAttraction | src/py/odm_similarity.py:110-125 | With a non-zero attraction total, attraction is rescaled to production's total and each zone keeps its share. Missing zones stay missing. With a zero total every present attraction ends as 0, the value `fillna` gives the 0/0 NaNs. |
| OdSimilarity.ZeroTotalMeansZeroCounts | src/py/odm_similarity.py:110 | With non-negative counts, a zero attraction total means every present count is 0. |
| OdSimilarity.BalancedTotals | src/py/odm_similarity.py:110 | After balancing, both totals agree. |
| OdSimilarity.NormaliseModel | src/py/odm_similarity.py:129 | The model matrix over its total sums to 1. An all-zero matrix stays zero (0/0, then `fillna`), and x/0 with x ≠ 0 is an error. |
| OdSimilarity.Cells | src/py/odm_similarity.py:132-137 | n·n triples in row-major order, with cell (i, j) at position i·n + j. |
| OdSimilarity.StuckAfterEmptyBin | src/py/odm_similarity.py:163-179 | Once `hist[bin_count]` is 0, no later bin is scored. |
| OdSimilarity.BinsIntended | src/py/odm_similarity.py:163-179 | The corrected loop scores exactly the bins with a nonzero frequency of their own. |
| OdSimilarity.AsWrittenAgreesWithoutEmptyBins | src/py/odm_similarity.py:163-179 | Without zero frequencies, the as-written and corrected loops agree. |
| OdSimilarity.Summarise | src/py/odm_similarity.py:177-180 | The mean times the number of scored bins is the sum of scores, and no scored bin is an error. |
| OdSimilarity.Od2Simi | src/py/odm_similarity.py:145-186 | Fails iff the histogram is short or all frequencies are 0, and it scores one row per nonzero bin. |
| OdSimilarity.Od2SimiAsWritten | src/py/odm_similarity.py:164-180 | The loop as written fails whenever the first frequency is 0. Without empty bins it gives the same result as the corrected loop. |
| OdSimilarity.EmptyFirstBinSilencesRest | src/py/odm_similarity.py:163-180 | With frequencies [0, 5] the loop as written divides by zero, while the corrected loop scores the second bin. |
| OdSimilarity.DistanceFilter | src/py/odm_similarity.py:198-214 | On the national scale, cells under 100 km become 0. Otherwise the matrix is unchanged. |
| OdSimilarity.NormaliseTwitter | src/py/odm_similarity.py:218 | Divides by max(total, 1), so an all-zero matrix stays zero and nothing divides by zero. |
| OdSimilarity.NormaliseGroundTruth | src/py/odm_similarity.py:217 | Divides by the total (sum 1), and a zero total is an error. |
| Models.NewModel | lib/models.py:28-35 | Fails iff p or gamma is missing, with p checked first. |
| Models.Fit | lib/models.py:57-64 | s is the number of distinct regions (their first rows) and `exploration_prob = p·s^(−gamma)`. The moves are fitted alongside. Fitting no rows with gamma > 0 fails. |
| Models.FirstRowsEmpty | lib/models.py:61 | There are no first rows iff there are no rows. |
| Models.FirstRowsAreFirst | lib/models.py:61 | Each kept row is a row of the input, and no earlier row has its region. |
| Models.UpdateS | lib/models.py:66-68 | s grows by one and the probability is recomputed. |
| Models.Next | lib/models.py:70-95 | Exploring shifts prev by a bearing and jump drawn from the fitted moves, gives a point with id max + 1 and raises s. It fails iff there is no fitted move or no region. Returning keeps the model and samples a fitted region, conditioned on prev's id only when prev is a region; the visit carries that region's recorded latitude and longitude. Under `RegionTransitionZipf` a return succeeds iff the sampled id is a fitted region. Return steps fail for the two samplers that take no `previous_point`. |
| Models.ExploreAlongMove | lib/models.py:82-88 | A successful exploration lands where the shift of prev by some fitted move's bearing and km·1000 jump puts it. |
| Models.OneRegionCannotExplore | lib/models.py:274-297 | A user whose rows all lie in one region has no move, so every exploring step fails. |
| Models.FittedMoves | lib/models.py:274-276 | The fitted moves are exactly the consecutive row pairs whose regions differ. |
| Models.ExplorationsShareId | lib/models.py:83-88 | Two explorations in a row carry the same id while s grows by two. |
| Models.ZeroPNeverExplores | lib/models.py:64-83 | With p = 0 no step explores, and a return keeps the model. |
| Models.FirstRows | lib/models.py:61 | One row per region, distinct, covering every region of the input. |
| Models.Slots | lib/models.py:350-359 | The layout has n_days + Σk_d slots. |
| Models.HomeSlotOfEachDay | lib/models.py:352-353 | Every day of the layout has its home slot (d, 0). |
| Models.DaySteps | lib/models.py:353-357 | A day's steps sit at slots 1, 2, … of the day. The first is `next` from the day's start, and a failing first step fails the day. |
| Models.DayStepsChain | lib/models.py:353-357 | Each row of a day is `next` of the model so far from the previous row's visit (the day's start for the first), and the models are the ones `next` hands on. |
| Models.HomesAtConcat | lib/models.py:350-357 | Home at the home slots is kept when runs of rows are joined. |
| Models.HomeRowOfDay | lib/models.py:350-353 | Rows laid out with home at the home slots hold a home row for every day of the layout. |
| Models.SampleDays | lib/models.py:350-360 | The rows follow the slot layout, open with the home row, and every row at a home slot (time slot 0) is the home visit. A failing first day fails the sample. The rows are chained day by day (`Chained`): each day is its home row and then that day's `next` steps, run on the model the previous day left. |
| Models.ChainedIsSampleDays | lib/models.py:350-360 | Any rows chained day by day that way are exactly what the sampler returns, so the chain is its reference definition. |
| Models.SampleUser | lib/models.py:328-364 | It succeeds iff the refit on the user's rows succeeds, the user has a home row and the days sample. The rows are then the days sampled from the refitted model starting at the visit of the first home row, chained day by day, laid out by slot, with that home visit at every time slot 0. |
| Models.NormalCount | lib/models.py:433-434 | At least 1, and otherwise the nearest integer to the draw, an exact half going to the even neighbour as Python's `round` does. |
| Models.WeightedCount | lib/models.py:437-449 | One of the survey values, between 2 and 27. |
| Models.WeightedDayRows | lib/models.py:437-449 | Under the survey distribution a day has 3..28 rows. |
| Models.DailyTrips | lib/models.py:407-449 | Normal ≥ 1, weighted 2..27, static n (or 0 when negative). |
| Models.NewSampler | lib/models.py:310-319 | Fails iff the model is missing. The daily count defaults to static 4. |
| Models.Sample | lib/models.py:366-385 | Missing tweets are an error, and so are tweets without rows, since `pd.concat` of no frames raises. Otherwise it succeeds iff `sample_user` succeeds for every user. |
| Models.SampleKeepsEachUser | lib/models.py:380-383 | The rows of user u in the joined sample are exactly `sample_user` on u's own tweets, and someone without tweets has no rows. |
| Models.JoinUsersOfUser | lib/models.py:381-383 | When each user's sample holds only that user's rows, the rows of u in the concatenation are u's sample if u is listed, and none otherwise. |
| Models.Users | lib/models.py:382 | `tweets.index.unique()`: each user id once, and exactly the ids that tweeted. |
| Models.UserRows | lib/models.py:343 | `tweets.loc[uid]`: a row is kept iff that user tweeted it. |
| Models.TrueProbs | lib/models.py:129-131 | One share per region: its row count over the number of rows, the shares summing to 1. No rows give no shares. |
| Models.RegionTallies | lib/models.py:161 | One tally per fitted region. |
| Models.Ranking | lib/models.py:161 | One entry per fitted region. |
| Models.RankingOrdersRegions | lib/models.py:161 | The ranking lists distinct regions with their row counts, from the largest count down. |
| Models.RankingCovers | lib/models.py:161 | A region is ranked iff some row belongs to it. |
| Models.ZipfProbs | lib/models.py:160-163 | The k-th most visited region gets weight k^(−s), and the weights are normalised to sum 1. No rows give no probabilities, and a positive power makes it succeed. |
| Models.ZipfOver | lib/models.py:162-163 | Over a ranking, entry k carries the k-th region and the normalised weight (k+1)^(−s). An empty ranking gives none, and a positive power makes it succeed. |
| Models.ZipfCoversRegions | lib/models.py:141-163 | Every region of the rows gets exactly one probability, and no other region gets one. |
| Models.ZipfKeepsRank | lib/models.py:141-163 | When the power falls with its base, a region with more rows never gets a smaller probability than one with fewer. |
| Models.ZipfOverKeepsRank | lib/models.py:162-163 | Over a ranking by non-increasing count, a larger count never gets a smaller probability. |
| Models.RankProbs | lib/models.py:215-224 | n ranks get the weights (k+1)^(−s) + 1e−7 normalised to sum 1. No ranks give none, and a non-negative power makes every probability positive. |
| Models.RankProbsOrder | lib/models.py:215-224 | When the power falls with its base, a later rank never gets a larger probability. |
| Models.RegionIds | lib/models.py:199-200 | `sort_index` over the regions: strictly increasing ids, exactly the regions of the rows. |
| Models.RegionsById | lib/models.py:199-200 | One first row per region, in increasing id order. |
| Models.DecayMatrix | lib/models.py:202-212 | A square matrix over the regions whose cell (i, j) is the decay between regions i and j. |
| Models.ColumnProbs | lib/models.py:215-224 | One probability per region id, in id order: region j gets the rank probability of its place in the count ranking. It fails iff the rank probabilities do, and a non-negative power makes every entry positive. |
| Models.ColumnProbsKeepRank | lib/models.py:215-224 | When the power falls with its base, a region with more rows never gets a smaller column probability. |
| Models.TransitionMatrix | lib/models.py:209-228 | Seed rows normalised, weighted by the given column probabilities and normalised again. It exists for non-negative distances and positive probabilities. |
| Models.TransitionFit | lib/models.py:198-228 | The fitted matrix is the transition matrix of the decays between the regions' first rows in id order, weighted by the column probabilities. It fails iff one of those fails, and non-negative powers and decays make it succeed. |
| Models.TransitionRowsPositive | lib/models.py:210-228 | No weighted row sums to zero, so every row of the transition matrix is a distribution. |
| Models.MovesMembers | lib/models.py:274-276 | A gap is a move iff it is one of the gaps and joins two different regions. |
| Models.SampleBearingJump | lib/models.py:274-297 | Over the fitted moves: fails iff there is none. |
| Models.BearingJumpOfMove | lib/models.py:274-297 | A sampled pair is the bearing and the km·1000 jump of one fitted move. |
| LegacyModels.JumpSizes | src/py/models.py:172-181 | One jump per consecutive pair, same-region pairs included. |
| LegacyModels.SampleJump | src/py/models.py:183-185 | The drawn jump in metres, and an error with no jumps. |
| LegacyModels.FitLegacy | src/py/models.py:55-62 | The shared fit plus the jump sizes. |
| LegacyModels.LegacyNext | src/py/models.py:64-86 | Exploring returns id −1. Returning samples a region without looking at prev and lands on that region's recorded latitude and longitude; it succeeds iff the id is a fitted region. Neither branch changes the model. |
| LegacyModels.NextIgnoresPrev | src/py/models.py:76-86 | A return is the same from any prev, and every exploration carries the same id. |
| LegacyModels.LegacyZeroPNeverExplores | src/py/models.py:62-77 | With p = 0 the fitted model never explores. |
| LegacyModels.NewLegacySampler | src/py/models.py:199-212 | The model and geotweets_path are both required, with the model checked first. |
| LegacyModels.LegacyDay | src/py/models.py:256-263 | A day's steps are all at slot 0. Each is `next` of the fitted model from the previous step's visit (the day's start for the first), and a failing first step fails the day. |
| LegacyModels.LegacyDays | src/py/models.py:256-263 | The rows follow the days of the slot layout, open with the home row, and every row at a day's home slot is the home visit. A failing first day fails them all, and the rows are chained day by day (`LegacyChained`). |
| LegacyModels.LegacyChainedIsDays | src/py/models.py:256-263 | Any rows chained day by day that way are exactly what the legacy days return. |
| LegacyModels.LegacySampleUser | src/py/models.py:244-264 | It succeeds iff the fit succeeds, a home row exists and the days sample. The rows are then the legacy days from the fitted model and the first home row's visit: the home row, then each day's steps, all at slot 0, with that home visit at every day's home row. |
| LegacyModels.LegacySample | src/py/models.py:225-273 | Missing tweets are an error. Otherwise it succeeds iff the per-user refit and sampling succeed for every user, and tweets without rows give an empty frame. |
| LegacyModels.LegacySampleKeepsEachUser | src/py/models.py:242-273 | The rows of user u in the collected frame are exactly the legacy per-user sample on u's own tweets, and someone without tweets has no rows. |
| LegacyModels.LegacyFlattensSlots | src/py/models.py:256-264 | The rows carry the newer sampler's days for the same step counts, with time slot 0 throughout. |
| Trips.Gaps | lib/helpers.py:204-211 | n rows give n − 1 gaps, pairing row k with row k + 1. |
| Trips.GapsSpanRows | lib/helpers.py:204-211 | The durations add up to last − first. |
| Trips.VisitGapsWithinUser | lib/helpers.py:214-229 | Every visit gap joins two consecutive rows of one user. |
| Trips.VisitGapsCount | src/py/mscthesis.py:92-105 | There are as many visit gaps as rows minus users. |
| Trips.TripsFromGeotweets | lib/helpers.py:305-331 | The one-pass loop produces the trips of the reference definition. The threshold is optional (always 12 h in src/py/mscthesis.py:164-183). |
| Trips.TripsJoinConsecutive | lib/helpers.py:312-331 | A trip is emitted iff it joins a user's row with that user's previous row and the gap passes the threshold. |
| Trips.TripsCount | lib/helpers.py:312-331 | trips + users ≤ rows, with equality without a threshold. |
| Trips.AfterMorningIffPastSix | lib/helpers.py:371-375 | A row is later than 06:mm of its day iff its hour is past 6. |
| Trips.MorningInfer | lib/helpers.py:345-390 | The one-pass loop produces the classified records of the reference definition. src/py/mscthesis.py:194-239 is the same. |
| Trips.MorningRecordsShape | lib/helpers.py:360-389 | '12h' records are under 12 h. 'infered' records are 12-48 h and start at six that morning. 'missed' records are ≥ 12 h with no destination. |
| Trips.MissedFollowsTrip | lib/helpers.py:376-389 | A 'missed' row follows a '12h' or 'infered' row of the same user. |
| Trips.MorningCount | lib/helpers.py:352-390 | Each user's first row emits nothing and every other row at most one record. |
| Trips.FromDfsMembers | src/py/trips.py:7-25 | A trip is emitted iff two adjacent rows are under 12 h apart, whoever their users are. |
| Trips.FromDfs | src/py/trips.py:13-25 | At most n − 1 trips. |
| Trips.FromDfsCrossesUsers | src/py/trips.py:12-25 | Two users' tweets an hour apart make one trip under the first user. |
| Odm.FromTrips | src/py/odm.py:3-6 | One row per distinct present key, counting the group's rows with a user id. src/py/mscthesis.py:126-129 is the same. |
| Odm.FromTripsTotal | src/py/odm.py:4-6 | The counts add up to the trips with a key and a user id. |
| TweetFilter.PopularIffShare | src/py/tweets-filter.py:76-78 | A pair is popular iff its share of all tweets exceeds 0.001. |
| TweetFilter.SurvivesIffClear | src/py/tweets-filter.py:79-86 | A tweet survives the mask iff its latitude and its longitude each differ from every popular pair's. |
| TweetFilter.TweetsFilter | src/py/tweets-filter.py:71-95 | Fails iff no pair is popular. Otherwise it keeps exactly the clear tweets of users with more than 50 clear tweets. |
| TweetFilter.SharedComponentRemoved | src/py/tweets-filter.py:79-86 | Sharing only one coordinate with a popular pair removes a tweet. |
| TweetFilter.ResultUsersAboveFifty | src/py/tweets-filter.py:90-95 | Every remaining user has more than 50 tweets in the result. |
| Downsample.Downsample | src/py/N-KL-relationship.py:27-31 | The first min(N_max, n) rows, returned iff one of them is home. |
| Downsample.LargeCapKeepsAll | src/py/N-KL-relationship.py:28-30 | A cap ≥ n keeps every row of a user with a home row. |
| Downsample.TwoRegionUsersIdempotent | src/py/N-KL-relationship.py:70-72 | The two-region filter removes whole users, so it is idempotent. |
| Downsample.ByNmax | src/py/N-KL-relationship.py:61-85 | Without N_max the rows pass unchanged. Otherwise it keeps a row iff it was downsampled and its user still has two regions. At most N_max rows per user group survive, so at most N_max × (number of groups) in all. |
| Downsample.ByIndividuals | src/py/N-KL-relationship.py:87-97 | Without a list the rows pass unchanged. Otherwise it keeps a row iff its user is listed and has two regions among the listed users' rows. |
| VisitsDescribe.NewDescriber | src/py/multi-region-visits-describe.py:26-38 | Fails iff the region is empty, the run id is 0 or the file is missing, checked in that order. |
| VisitsDescribe.DayNumbers | src/py/multi-region-visits-describe.py:40-44 | Fails iff the first row is not at slot 0. Otherwise each row's day is the number of slot-0 rows up to it, at least 1. |
| VisitsDescribe.StartsMonotone | src/py/multi-region-visits-describe.py:42-43 | Day numbers never decrease. |
| VisitsDescribe.StartsStep | src/py/multi-region-visits-describe.py:42-43 | A row's day is its predecessor's, plus one iff it is at slot 0. |
| VisitsDescribe.Days | src/py/multi-region-visits-describe.py:40-44 | Groups concatenate to the rows, and only a group's first row is at slot 0. |
| VisitsDescribe.DaysCount | src/py/multi-region-visits-describe.py:42-43 | There are as many groups as slot-0 rows. |
| VisitsDescribe.Destinations | src/py/multi-region-visits-describe.py:48-51 | Row i's destination is row i+1, and the last row's is the first. |
| VisitsDescribe.DestinationsPermute | src/py/multi-region-visits-describe.py:48-51 | The destinations are a permutation of the day's visits. |
| VisitsDescribe.DayStats | src/py/multi-region-visits-describe.py:46-61 | num_trip = rows = num_trip_inland, pkt = Σ leg distances = pkt_inland, and an empty day is an error. |
| VisitsDescribe.TourRotationInvariant | src/py/multi-region-visits-describe.py:48-58 | Rotating the day leaves its statistics unchanged. |
| VisitsDescribe.DayDistanceBounds | src/py/multi-region-visits-describe.py:54-58 | The distance is non-negative, and a one-visit day travels to itself. |
| Radiation.Truncate | lib/radiation.py:84-85 | The integer a float becomes when numpy casts it to int: no farther from 0 than x, and within 1 of it. |
| Radiation.Pij | lib/radiation.py:76-86 | pij(i, i) = 0. Off the diagonal, pij is the population within distance d[i][j] of zone i, less pop_i and pop_j, cut to an integer. The cut comes from `np.vectorize`, whose output type is fixed by the first call, made at (0, 0), where `pij` returns the int 0. |
| Radiation.PijIsIntervening | lib/radiation.py:78-80 | Off the diagonal, pij is the integer part of the population of the other zones no farther from i than j. |
| Radiation.FractionalPopulationTruncated | lib/radiation.py:84-89 | Three zones of population 0.5, one apart on a line: the half person between zones 0 and 2 is cut from pij, and the flow from 0 to 2 is 375, not the 125 of the exact value. |
| Radiation.PijNonNegative | lib/radiation.py:78-80 | With d[i][i] = 0 and non-negative data, pij ≥ 0. |
| Radiation.Flows | lib/radiation.py:84-90 | An n×n matrix with entry (i, j) given by the line-89 formula of pop_i, pop_j and the integer pij. |
| Radiation.FlowsPositive | lib/radiation.py:84-90 | With positive populations and n ≥ 2, every flow is defined and positive. |
| Radiation.FlowFallsWithIntervening | lib/radiation.py:89 | More intervening population gives a smaller flow. |
| Pipeline.ConfigProduct | lib/pipeline.py:6-15 | Fails iff either list is missing, factories first. Otherwise it is the factory-major product, each pair once. |
| Pipeline.DescribedProduct | lib/pipeline.py:12-27 | Entry i·\|H\| + j describes factory i under "visits" and path j under "home_locations". |
| ResultComp.StringRange | src/py/resultcomp.py:9-19 | A string is kept iff it lies in an open range (opened by `start`, closed after `end`). A missing `start` fails. |
| ResultComp.RangedFromInput | src/py/resultcomp.py:9-19 | The kept strings come from the input in order. |
| ResultComp.NothingBeforeStart | src/py/resultcomp.py:13-16 | Nothing before the first `start` match is kept. |
| ResultComp.EndClosesRange | src/py/resultcomp.py:15-18 | An `end` match is kept and the next string is dropped unless it reopens. |
| ResultComp.NoEndKeepsSuffix | src/py/resultcomp.py:13-18 | Without `end`, the suffix from the first `start` match is kept. |
| ResultComp.StringRangeWithBaseline | lib/resultcomp.py:11-23 | The same, with each 'baseline' string appended as met. |
| ResultComp.BaselineKept | lib/resultcomp.py:15-16 | Every 'baseline' string is kept. |
| ResultComp.BaselineInRangeTwice | lib/resultcomp.py:15-20 | A 'baseline' string inside a range appears twice. |
| ResultComp.OnlyBaselineBeforeStart | lib/resultcomp.py:14-20 | Before the first `start` match only 'baseline' strings are kept. |
| ResultComp.BaselineOnTop | lib/resultcomp.py:11-23 | When no string starts with "baseline", the version that puts 'baseline' on top gives the same result as the other. |
| Survey.ParseHhmm | lib/helpers.py:414-424 | Succeeds iff the truncated value has an hour (div 100) below 24 and a minute (mod 100) below 60, and then gives a valid time. |
| Survey.ParseHhmmRoundTrip | lib/helpers.py:415-424 | Parsing a time's HHMM number gives the time back. |
| Survey.ParseHhmmInverse | lib/helpers.py:415-424 | A parsed time is the HHMM number it came from. |
| SpSsim.CheckInputs | lib/helpers.py:454-461 | Passes iff Y shares X's index, D shares Y's, and X and Y are normalised, with each failure in that order. |
| SpSsim.NormalisedInputsAccepted | lib/helpers.py:454-461 | Series scaled to sum 1 over one index pass. |
| Grouping.Split | src/go/internal/ingest/ingest.go:286 | `strings.Split` gives one more piece than separators, and no piece holds the separator. |
| Grouping.SplitJoin | src/go/internal/ingest/ingest.go:286 | Joining the pieces gives the string back. |
| Grouping.JoinSplit | src/go/internal/ingest/ingest.go:286 | Splitting separator-free pieces joined gives them back. |
| Grouping.NameKey | src/go/internal/ingest/ingest.go:284-287 | The second '_'-separated field, and a name without '_' is an error. |
| Grouping.GroupBy | src/go/internal/ingest/ingest.go:280-295 | Groups are non-empty, hold one key each, distinct across groups, and the group of every input element's key is among them (each group being all members of its key). |
| Grouping.GroupWeights | src/go/internal/ingest/ingest.go:283-293 | Grouping neither loses nor repeats an element. |
| Grouping.GroupByName | src/go/internal/ingest/parse.go:251-266 | Each name lands in the group of its key, and a name without '_' fails. |
| Ingest.Add | src/go/internal/ingest/ingest.go:75-79 | Componentwise sum. |
| Ingest.TotalConcat | src/go/internal/ingest/ingest.go:75-79 | Accumulating batches separately or together gives the same total. |
| Ingest.SortByTime | src/go/internal/ingest/ingest.go:82-84 | A time-ordered permutation. |
| Ingest.RepeatedIffSeen | src/go/internal/ingest/ingest.go:93-103 | A tweet is a duplicate iff its id was remembered. |
| Ingest.Run | src/go/internal/ingest/ingest.go:88-127 | A conflicting user id fails the loop. A success keeps the counts, the timeline and the profiles right. |
| Ingest.JsonAsUser | src/go/internal/ingest/ingest.go:81-129 | A user conflict makes it fail. It fails only if there is a user conflict or a failed look-up of some geotagged tweet. Duplicates + Tweets = input, and GeoTweets = \|Timeline\|. Ids are distinct, the timeline is time-ordered, and every entry comes from a geotagged input tweet with coords[1], coords[0]. Consecutive profiles differ. |
| Ingest.TimelineFacts | src/go/internal/ingest/ingest.go:99-115 | The timeline has distinct ids and time order, and its entries come from geotagged tweets. |
| Ingest.ParseJSON | src/go/internal/ingest/ingest.go:59-66 | No tweets is an error. Otherwise at least one Tweet is counted and GeoTweets ≤ Tweets. |
| Ingest.KeptUnique | src/go/internal/ingest/ingest.go:93-103 | No more tweets are kept than counted as new. |
| Ingest.UngeotaggedCountedTwice | src/go/internal/ingest/ingest.go:93-101 | The same non-geotagged tweet twice counts as 2 Tweets and 0 duplicates. |
| LegacyIngest.Run | src/go/internal/ingest/parse.go:84-121 | Uniques + duplicates = input, and a conflicting user id fails. |
| LegacyIngest.UniquesDistinct | src/go/internal/ingest/parse.go:89-105 | Kept tweets have distinct ids. |
| LegacyIngest.UniquesCoverIds | src/go/internal/ingest/parse.go:89-105 | Every input id is kept once. |
| LegacyIngest.UniquesSorted | src/go/internal/ingest/parse.go:77-105 | The kept tweets keep the time order. |
| LegacyIngest.ToTweet | src/go/internal/ingest/parse.go:95-104 | Two coordinates give latitude coords[1] and longitude coords[0], and otherwise 0, 0. |
| LegacyIngest.JsonAsUser | src/go/internal/ingest/parse.go:76-122 | Fails exactly when a tweet, in time order, belongs to another user than the one before it. A tweet before it with user id 0 never conflicts. |
| LegacyIngest.JsonAsUserIds | src/go/internal/ingest/parse.go:89-105 | The timeline's ids are distinct and are exactly the input's ids. |
| LegacyIngest.JsonAsUserTimeline | src/go/internal/ingest/parse.go:76-122 | Every timeline entry is an input tweet, the entries keep the time order, and consecutive profiles differ. |
| LegacyIngest.ParseJSON | src/go/internal/ingest/parse.go:53-55 | No tweet lines is an error. |
| LegacyIngest.RepeatKeptOnce | src/go/internal/ingest/parse.go:89-105 | A tweet seen twice is kept once, coordinates or not. |
| UserLocation.SortDesc | src/go/cmd/userlocation/main.go:144-146 | A permutation by non-increasing count. |
| UserLocation.Unsharpen | src/go/cmd/userlocation/main.go:122-148 | Cells are distinct and sorted by count. Every cell is the parent of a bin with a geohash (same user), and counts add up to those bins' total. |
| UserLocation.UnsharpenCovers | src/go/cmd/userlocation/main.go:125-131 | Every bin with a geohash lands in its parent cell. |
| UserLocation.UnsharpenSums | src/go/cmd/userlocation/main.go:133-142 | A cell's count is the sum of its member bins' counts. |
| UserLocation.RoundsFall | src/go/cmd/userlocation/main.go:106-110 | Each `unsharpen` shortens the longest geohash, so the loop ends. |
| UserLocation.Coarsen | src/go/cmd/userlocation/main.go:105-110 | No bins is an error. Otherwise the loop stops with a share not below 0.1 (and at most 1) and sorted bins enclosing input bins. |
| UserLocation.CoarsenRounds | src/go/cmd/userlocation/main.go:105-110 | The loop stops after a round k: every earlier round's top share was below 0.1, the returned share is round k's, and the returned bins are round k + 1's. When no round stops the loop, it fails. |
| UserLocation.StopsOnce | src/go/cmd/userlocation/main.go:105-110 | The loop stops after one round only. |
| UserLocation.HomeLocation | src/go/cmd/userlocation/main.go:100-120 | TotalTweets is the input sum. The percentage is None for a zero total, and otherwise lies in [0.1, 1]. The geohash encloses some input bin of the same user. |
| UserLocation.HomeLocationRounds | src/go/cmd/userlocation/main.go:105-120 | The home is the first bin of the round after the last, and no bin of that round counts more. The percentage is the last round's top share. |
| UserLocation.HomeLocationFails | src/go/cmd/userlocation/main.go:105-119 | It fails iff no round stops the loop or the round after the last has no bins. |
| UserLocation.EmptyGeohashFails | src/go/cmd/userlocation/main.go:105-128 | A single empty-geohash bin ends the loop with an empty list, so `tls[0]` fails. |
| UserLocation.OneBinHome | src/go/cmd/userlocation/main.go:105-119 | A single bin gives share 1 and its parent cell as home. |
| UserLocation.HomeUser | src/go/cmd/userlocation/main.go:113 | A user's own bins give that user's home. |
| UserLocation.HomesOf | src/go/cmd/userlocation/main.go:46-52 | The loop fails iff some list of ≥ 2 bins fails, and every home comes from such a list. |
| UserLocation.HomeLocations | src/go/cmd/userlocation/main.go:44-83 | Every home is the `homeLocation` of its own user's ≥ 2 bins. |
| UserLocation.HomeLocationsFail | src/go/cmd/userlocation/main.go:44-52 | The program fails iff some user with ≥ 2 bins fails. |
| UserLocation.HomeLocationsCover | src/go/cmd/userlocation/main.go:46-52 | Every user with ≥ 2 bins gets a home. |
| UserLocation.HomeLocationsDistinct | src/go/cmd/userlocation/main.go:77-83 | No user gets two homes. |
| ClusterVisits.Largest | src/go/internal/locations/visits.go:38-40 | The first cluster that no other outnumbers. |
| ClusterVisits.Visits | src/go/internal/locations/visits.go:17-45 | None iff there are no clusters. Clusters without tweets fail at `tweets[0]`. |
| ClusterVisits.ReportLargest | src/go/internal/locations/visits.go:26-44 | The location is a largest cluster's, with the first tweet's user and the radius. |
| ClusterVisits.ReportShare | src/go/internal/locations/visits.go:31 | PercentageTotal × \|tweets\| = Count. |
| ClusterVisits.ReportNext | src/go/internal/locations/visits.go:41-43 | 0 with one cluster. Otherwise the share of a next-largest cluster. |
| ClusterVisits.ReportNextBounds | src/go/internal/locations/visits.go:41-43 | NaN iff Count is 0, and otherwise in [0, 1]. |
| Repogen.FirstPrimary | src/go/internal/repogen/table.go:18-25 | The first primary column with true, or the zero column with false. |
| Repogen.PrimaryColumn | src/go/internal/repogen/table.go:18-25 | True iff some column is primary, and then it returns that column. |
| Repogen.PrimaryAfterPlain | src/go/internal/repogen/table.go:19-23 | Non-primary columns in front do not change the answer. |
| Repogen.Indexes | src/go/internal/repogen/table.go:27-38 | A name is present iff some column lists it, and it maps to those columns in order, once per listing. |
| Repogen.ListingMembers | src/go/internal/repogen/table.go:29-36 | A column appears under k iff it lists k. |
| Repogen.ListingOnce | src/go/internal/repogen/table.go:29-36 | Without double listings an entry is exactly the columns listing k. |
| Repogen.ListedTwice | src/go/internal/repogen/table.go:31-35 | A column listing k twice appears twice. |
| Repogen.GoTypeRoundTrip | src/go/internal/repogen/table.go:42-58 | int, string and float64 go to a column type and back unchanged. time.Month and time.Weekday share "INTEGER" and come back as "int". |
| Repogen.TimeColumnPanics | src/go/internal/repogen/table.go:46-66 | `time.Time` gets the column type "TIMESTAMP", on which `GoType` panics. |
| Repogen.GoTypeFixedRoundTrip | src/go/internal/repogen/table.go:51-66 | With the fix every accepted Go type comes back, and the other answers are unchanged. |

## Left out

- **Geometry.** Spatial joins, CRS conversion and shapefile reading are left out. Zone look-up is a parameter (`locate`), and distances are inputs.
- **DBSCAN and centroids.** They are a parameter of `ClusterVisits.Visits`.
- **geohash.Decode.** The home's latitude and longitude are not modelled.
- **Library algorithms.** `pd.qcut`, the `ipfn` package and scipy fitting are left out.
- **Transcendental numerics.** exp, pow, log10, haversine, bearing and `latlngshift` are uninterpreted parameters. The SpSSIM score itself is a parameter of `OdSimilarity.Od2Simi`.
- **Floating point.** Rounding, NaN propagation and overflow are not modelled. Reals are exact. A NaN or inf from a zero divisor is an error or `None`.
- **Randomness.** Every draw is an explicit input. `mp.Pool` and the Go goroutine pipelines are left out, because they only parallelise the per-user work.
- **JSON and time parsing.** Decoding in `parseJSON` is left out. Tweets arrive decoded, and the time-zone look-up of `toGeoTweet` is a parameter that may fail.
- **Database and CLI plumbing.** SQL, file paths, zip sources, printing and progress counters are left out.
- **Unstable and hash-ordered iteration.** pandas' reordering by `groupby`/`sort_index` is not reproduced where it only permutes rows. Go's unstable `sort.Slice` ties and map iteration order are fixed to input order:
  - ties go to the first;
  - groups come in order of first appearance.
  - The contracts that depend on the order (`ClusterVisits.Largest`, `UserLocation.SortDesc`, `Grouping.GroupBy`) therefore state one admissible order among several.
  - `sort_values(ascending=False)` leaves the order of equal counts open. `Models.Ranking` puts them in order of first appearance, and the Zipf weight each tied region gets follows from that choice.
  - Rows with equal tweet ids are left in row order by `Archive.SortById`. Tweet ids are unique in the data.
- **`remove_consecutive_region_visits` and `RegionTransitionZipf.probs_from_point`.** They depend on pandas index alignment, not on stated logic.
- **src/py/genericvalidation.py `crs_convert_visits` and the point spatial join.** These are geometry.
- **Downsample.Downsample:** N_max is a natural number. A negative N_max, whose Python slice counts from the end, is not modelled.
- **Radiation.Flows:** the diagonal is computed by the same line-89 formula with pij = 0. Its meaning as a self-flow is not claimed.
- **Repogen.ColumnTypeOf:** only the six Go types `astType` accepts are modelled. Struct-tag parsing and go/ast are left out.
- **UserLocation.HomeLocation:** bin counts are natural numbers (they come from `count(*)`).
- **Models.Sample:** the `mp.Pool` is left out: users are sampled one after another in order of first appearance and the results are concatenated. Each user's random draws are an input (`draws(u)`). A user with a single tweet, for whom `tweets.loc[uid]` gives a Series rather than a frame, is not modelled.
- **Gravity.IpfStep:** numpy broadcasts an operand of length 1. With a single origin or a single destination, margins whose lengths differ from the matrix's do not fail in the source (src/py/validation.py:199-202), and the matrix changes shape. The model treats every length mismatch as an error.
- **Gravity.GravitateAsWritten:** for the same reason, a non-square demand matrix with one origin or one destination does not fail in the source. The model's `n != m` error holds in the source only when n > 1 and m > 1.
- **LegacyModels.LegacySample:** the progress message printed every 250 users is left out. Each user's daily counts and draws are an input (`days(u)`). A user with a single tweet, for whom `tweets.loc[uid]` gives a Series rather than a frame, is not modelled.
- **LegacyModels.LegacySampleUser:** a user with no 'home' row is an error in the model. The source does not fail there: `home.latitude` is an empty Series, and the loop appends rows holding empty Series as coordinates (src/py/models.py:251-263). Those rows are not modelled.
- **Legacy single-home cell.** The single-row `home` case of src/py/models.py:251-254 is taken as the first home row.
- **Repogen.GoTypeRoundTrip:** Month and Weekday, stored as "INTEGER", come back as "int" rather than their own Go type. This is stated as the code's behaviour, not claimed as a bug.

## Findings

| source | as written | input that shows it | evidently intended | confidence | as-written member | corrected member |
|---|---|---|---|---|---|---|
| lib/validation.py:197-220 | The merge loop stops at the last merge position. Bins after it are never emitted. | Ground truth [0, 0.5, 0.5] against model [0.2, 0.4, 0.4]: merge set {0, 1}, merged series [0.5] and [0.6], bin 2 lost. | Copy the bins after the last run as well, so each series keeps its mass. | not executed | KlMerge.DroppedTailBin | KlMerge.IntendedMergeConservesMass |
| src/py/odm_similarity.py:164-179 | `freq = hist[bin_count]` while `bin_count` advances only on scored bins. After one empty bin every later bin re-reads that 0. | Frequencies [0, 5]: no bin is scored, and line 180 divides by zero. | Bin k is read at its own frequency `hist[k]`. | not executed | OdSimilarity.EmptyFirstBinSilencesRest | OdSimilarity.Od2Simi |
| src/py/validation.py:186-195 | `ipf(seed, production, attraction)` puts production in the column-margin slot, while seed rows are origins. | A 2×2 demand matrix where zone 0 produces almost all trips and attracts almost none: destination totals come out as production. | Rows fitted to production and columns to attraction. | not executed | Gravity.GravitateAsWrittenMissesAttraction | Gravity.GravitateMeetsAttraction |
| src/go/internal/repogen/table.go:46-66 | The Time constant is "TIMESTAMP", but `GoType` switches on "TIME". | A `time.Time` field: `astType` gives "TIMESTAMP", and `GoType` panics. | `GoType` of the Time column type is "time.Time". | not executed | Repogen.TimeColumnPanics | Repogen.GoTypeFixedRoundTrip |
