# Soundscape dashboard: verified model of the data preparation and plot logic

This project models the deterministic core of the soundscape dashboard. It
covers two source files.

From `src/preprocess.py`:

- the two hand-written scalers: `MinMaxScaler`, and `StandardScaler` with the
  z-score;
- the participant ordering `sort_by_age_preserve_order`;
- the first-occurrence de-duplication `make_distinct_df`;
- the `n_obs_id` observation counts;
- the per-participant 24-hour histogram `compute_hourly_counts_per_id`;
- the `Common_location` column;
- the derived wellbeing columns;
- the radar-chart loop of `prepare_data`, with its checks and its coordinates.

From `src/plot_functions.py`:

- the hour index sequence behind `create_time_color_map` and its
  normalisation;
- the column-title prettifier;
- the sound-category tick labels;
- the daily-observation y-ticks.

A data frame is modelled as one of three things:

- a sequence of rows carrying the fields the operation reads: participant
  `ID`, `Age`, hour of day, `Location8`;
- a `seq<seq<real>>` numeric matrix, for the scalers;
- a column list with one `map<string, real>` record per row, for the radar
  frames.

Numeric values are exact reals. A Python exception raised on an input the
source accepts becomes the `Err` case of a `Result`, except in the cases
listed under "Left out", which are excluded by a precondition. The
`ValueError` that `np.max` raises on an empty count list becomes `None` in
`DailyObservationTicks`. Each scaler is a class: `Fit` sets its fields, and
`Transform`/`InverseTransform` read them. `ComputeHourlyCountsPerId` fills a
fresh two-dimensional array in nested loops, as the source does.
`PrepareRadarData` builds the two nested dictionaries in nested loops.

Files:

- `outcomes.dfy`: `Result`/`Option` and the sequence maximum.
- `text.dfy`: the Python string operations used (`split`, `join`,
  `capitalize`).
- `plot_functions.dfy`: modules `ColorMap` and `PlotLabels`.
- `participants.dfy`: ordering, de-duplication and observation counts.
- `hourly_counts.dfy`: the hourly histogram array.
- `scalers.dfy`: the two scaler classes.
- `radar.dfy`: the wellbeing columns and the radar loop.
- `location.dfy`: `Common_location`.

## Model

| member | source | states |
|---|---|---|
| Outcomes.SeqMax | src/plot_functions.py:30 | `max()` of a non-empty integer sequence bounds every element and is one of them |
| Text.Capitalize | src/plot_functions.py:196 | `str.capitalize`: same length, first character upper-cased, every other character lower-cased |
| Text.Split | src/plot_functions.py:196 | `str.split` with one separator always yields at least one piece |
| Text.SplitCount | src/plot_functions.py:196 | splitting yields exactly one piece more than there are separators |
| Text.SplitPiecesFree | src/plot_functions.py:196 | no piece of a split contains the separator |
| Text.SplitJoin | src/plot_functions.py:196 | joining the pieces with the separator gives the original string back |
| ColorMap.TimeRange | src/plot_functions.py:27 | `np.arange(0, 12)` is the 12 integers 0..11 in order |
| ColorMap.FullTimeRange | src/plot_functions.py:27-28 | `np.concatenate((time_range, time_range[::-1] + 2))` has 24 entries; its values are stated in FullTimeRangeValues |
| ColorMap.DivideByMax | src/plot_functions.py:30 | dividing a sequence by its non-zero maximum keeps its length |
| ColorMap.FullTimeRangeValues | src/plot_functions.py:27-28 | the concatenated sequence has length 24: entry k is k for k < 12, and 25 - k for 12 <= k < 24 (so 13, 12, ..., 2) |
| ColorMap.FullTimeRangeShape | src/plot_functions.py:27-28 | strictly increasing over 0..11, strictly decreasing over 12..23, maximum 13, reached only at position 12 |
| ColorMap.NormalizedTimeRange | src/plot_functions.py:30 | the normalised sequence has 24 entries |
| ColorMap.NormalizedTimeRangeShape | src/plot_functions.py:30 | entry k is `seq[k] / 13`; all lie in [0, 1]; entry 0 is 0; entry k is 1 exactly when k = 12; entries i and 25 - i agree for 2 <= i <= 11 |
| ColorMap.CreateTimeColorMap | src/plot_functions.py:33-42 | 24 colours; colour 0 is the colormap at 0.0, colour 12 at 1.0; colours i and 25 - i agree for 2 <= i <= 11 (the full per-colour statement is TimeColorMapShape) |
| ColorMap.TimeColorMapShape | src/plot_functions.py:33-42 | for any colormap and hex conversion: 24 colours, colour k is the colormap at normalised value k, colour 0 is at 0.0, colour 12 at 1.0, colours i and 25 - i agree for 2 <= i <= 11 |
| PlotLabels.CapitalizeAll | src/plot_functions.py:196 | the comprehension keeps the number of words, and word k of the result is `capitalize()` of word k |
| PlotLabels.PrettyTitle | src/plot_functions.py:196 | the pretty title has exactly the title's length (per character, see PrettyTitleChars) |
| PlotLabels.CapitalizedSplitLength | src/plot_functions.py:196 | splitting on one character, capitalising each piece and re-joining with one character keeps the length |
| PlotLabels.PrettyTitleStep | src/plot_functions.py:196 | the title up to its first `_` is capitalised and followed by one space and the prettified rest |
| PlotLabels.PrettyTitleChars | src/plot_functions.py:196 | the pretty title has the title's length, and each character is given by the character-wise reference (`_` becomes a space, a word's first character is upper-cased, the others lower-cased) |
| PlotLabels.PrettyTitleSpaces | src/plot_functions.py:240-241 | same length as the column name; a space exactly where the name had `_` or a space; no `_` left |
| PlotLabels.SoundCategoryLabel | src/plot_functions.py:98 | `col.split("_")[1]` of a column with an `_` contains no `_` (its exact span is SoundCategoryLabelSpan) |
| PlotLabels.SoundCategoryTicks | src/plot_functions.py:98-99 | one tick per column; tick k sits at position k and its label has no `_` |
| PlotLabels.TickPositions | src/plot_functions.py:106 | `[i for i, _ in x_ticks]` has one position per tick (their values are stated in SoundCategoryTicksPaired) |
| PlotLabels.SoundCategoryLabelSpan | src/plot_functions.py:98 | `col.split("_")[1]` is the text between the first and the second `_` (or the end), and contains no `_` |
| PlotLabels.SoundCategoryLabelOfPrefixed | src/plot_functions.py:98 | for a column `SC_<name>` with no further `_`, the label is `<name>` |
| PlotLabels.LabelOverridesLookup | src/plot_functions.py:107 | the dictionary comprehension over pairs with distinct positions has exactly those positions as keys, each mapped to its own label |
| PlotLabels.SoundCategoryTicksPaired | src/plot_functions.py:98-107 | the tick positions are 0..n-1 in order, the override keys are exactly 0..n-1, and position k carries the label of column k |
| PlotLabels.SoundCategoryLabelsConcrete | src/plot_functions.py:85-107 | for the eight `SC_` columns: ticks `[0..7]`, and label k is column k without its `SC_` prefix |
| PlotLabels.DailyObservationTicks | src/plot_functions.py:64-65 | no ticks exactly when there are no counts (where `np.max` raises); otherwise the ticks are 0, 1, ..., max_count |
| PlotLabels.DailyObservationTicksCover | src/plot_functions.py:64-65 | with non-negative counts, every count is a tick, the ticks are exactly 0..max_count, and the last tick is a count |
| Participants.FirstIndex | src/preprocess.py:161 | the first row of an ID carries that ID, and no earlier row does |
| Participants.FirstPositions | src/preprocess.py:161 | the positions kept by `duplicated(keep="first")` are increasing, each is the first row of its ID, and every first row is kept |
| Participants.Distinct | src/preprocess.py:153-161 | the distinct frame is no longer than the input and holds only input rows (the full statement is DistinctFirstOccurrences) |
| Participants.DistinctFirstOccurrences | src/preprocess.py:153-161 | `make_distinct_df` keeps one row per ID: the IDs are pairwise distinct and the same set as the input's; each kept row is its ID's first row; rows keep their original relative order |
| Participants.DistinctCoversIds | src/preprocess.py:153-161 | every input ID is represented in the distinct frame, and no other |
| Participants.UniqueIds | src/preprocess.py:403 | `df["ID"].unique()` has at most one entry per row, each an input ID (the full statement is UniqueIdsSpec) |
| Participants.UniqueIdsSpec | src/preprocess.py:403-408 | `df["ID"].unique()` is duplicate-free, holds exactly the input's IDs, and lists them in order of first appearance |
| Participants.ObservationCounts | src/preprocess.py:301 | `n_obs_id` has one entry per row |
| Participants.ObservationCountsSpec | src/preprocess.py:301 | every row's `n_obs_id` is at least 1, and rows of the same participant get the same value |
| Participants.SortBy | src/preprocess.py:137 | `sort_values` keeps the number of entries (permutation and order are SortBySpec) |
| Participants.SortBySpec | src/preprocess.py:137 | the sort of the participants by first age is a permutation, and non-decreasing in the key |
| Participants.SortByNoDuplicates | src/preprocess.py:137 | sorting a duplicate-free sequence of IDs keeps it duplicate-free |
| Participants.Groups | src/preprocess.py:143-146 | the layout holds only input rows of the ranked participants (permutation and order are GroupsPermutation and GroupsOrdered) |
| Participants.GroupsPermutation | src/preprocess.py:143-146 | laying out the rows participant by participant in the ranked order gives a permutation of the rows of the ranked participants |
| Participants.GroupsOrdered | src/preprocess.py:143-146 | in that layout each participant's rows are contiguous, participants appear in key order, and ages do not decrease within a participant |
| Participants.SortByAgePreserveOrder | src/preprocess.py:135-150 | the sorted frame has as many rows as the input, each one of the input rows (the full statement is SortByAgePreserveOrderSpec) |
| Participants.SortByAgePreservesRows | src/preprocess.py:135-150 | the rows laid out in the order of the sorted IDs are a permutation of the input rows |
| Participants.SortByAgePreserveOrderSpec | src/preprocess.py:135-150 | the output is a permutation of the input rows; each participant's rows are contiguous; participants are in non-decreasing order of their first-row age; ages are non-decreasing within a participant |
| HourlyCounts.HourCount | src/preprocess.py:411-416 | a participant's count in one hour is at most their number of rows, and 0 for an hour outside 0..23 |
| HourlyCounts.HourHistogram | src/preprocess.py:411 | the per-hour `count()` has a key h exactly when some row of the participant has hour h, and maps each key to the participant's number of rows in that hour |
| HourlyCounts.HourCountOfPresentHour | src/preprocess.py:411 | an answer of the participant in an hour makes that hour's count positive |
| HourlyCounts.HourCountWitness | src/preprocess.py:411 | a positive count in an hour comes from some row of the participant in that hour |
| HourlyCounts.HourCountPositiveIff | src/preprocess.py:411 | the hours with a positive count are exactly the hours in which the participant answered |
| HourlyCounts.HourCountOfAbsentHour | src/preprocess.py:414-416 | an hour in which the participant never answered counts 0 and is missing from the histogram |
| HourlyCounts.HourlyCountsSumToObservations | src/preprocess.py:397-419 | a participant's 24 hourly counts add up to their number of rows, which is the value of `n_obs_id` on each of their rows |
| HourlyCounts.FillRow | src/preprocess.py:411-418 | fills row i of the array with the participant's 24 hourly counts, leaving every other row unchanged |
| HourlyCounts.ComputeHourlyCountsPerId | src/preprocess.py:397-419 | the fresh array has one row per unique ID, in first-appearance order, and 24 columns; cell (i, h) is the number of rows of the i-th ID in hour h (0 where there are none); each row sums to that participant's observation count |
| Location.InsertSpaces | src/preprocess.py:308 | the rewrite never shortens the string and inserts at most one space per two characters |
| Location.InsertSpacesWeaves | src/preprocess.py:308 | the left-to-right scan equals the reference: the string with one space after each position `GapAt` marks (a word character before a capital, unless that character was itself the capital of the previous match) |
| Location.GapsSound | src/preprocess.py:308 | a space is only inserted between a word character and an upper-case letter, and never at two consecutive positions (matches do not overlap) |
| Location.GapsComplete | src/preprocess.py:306-308 | every change from a non-capital word character to a capital gets a space, and so does every matching pair whose first character was not consumed |
| Location.WeaveLength | src/preprocess.py:308 | the output is longer than the input by exactly the number of inserted spaces |
| Location.InsertSpacesErasable | src/preprocess.py:308 | deleting all spaces from the output gives the same as deleting them from the input |
| Location.CommonLocation | src/preprocess.py:308 | the rewrite of `s[2:]` is at least as long as `s[2:]` and removing spaces from both gives the same string |
| Location.CommonLocationSpec | src/preprocess.py:307-309 | for every location, the column value is `s[2:]` with one space per gap, and is longer than `s[2:]` by the number of gaps; for a location without spaces, removing the spaces gives `s[2:]` back |
| Location.DropTwo | src/preprocess.py:308 | `str[2:]` is the suffix after two characters, and empty for shorter strings |
| Location.MostFrequent | src/preprocess.py:303-305 | `value_counts().index[0]` is one of the participant's locations and occurs at least as often as any other value |
| Location.CommonLocationColumn | src/preprocess.py:303-309 | the transformed column has one entry per row |
| Location.CommonLocationColumnSpec | src/preprocess.py:303-309 | rows of the same participant get the same value; each value is the rewrite of a location the participant gave at least as often as any other |
| Scalers.Min | src/preprocess.py:34 | `X.min(axis=0)` of a column bounds every entry from below and is one of them |
| Scalers.Max | src/preprocess.py:35 | `X.max(axis=0)` of a column bounds every entry from above and is one of them |
| Scalers.MinMaxScaler.Transform | src/preprocess.py:54-61 | scaling a frame with the fitted features keeps its rows and its width (value by value, see MinMaxScaler.RoundTrip and MinMaxScaleAllBounds) |
| Scalers.MinMaxScaler.InverseTransform | src/preprocess.py:63-70 | unscaling keeps the rows and the width (its inverse property is MinMaxScaler.RoundTrip) |
| Scalers.StandardScaler.Transform | src/preprocess.py:102-108 | standardising keeps the rows and the width (mean 0 is StandardScaleAllMeanZero) |
| Scalers.StandardScaler.InverseTransform | src/preprocess.py:110-116 | unstandardising keeps the rows and the width (its inverse property is StandardScaler.RoundTrip) |
| Scalers.MinMaxRoundTrip | src/preprocess.py:54-70 | for a value, unscaling undoes scaling and scaling undoes unscaling, whenever `data_range_ != 0` and `max != min` |
| Scalers.MinMaxScaleBounds | src/preprocess.py:50-51 | when `min <= max`, a value between the column's minimum and maximum is scaled into [min, max]; the minimum goes to `min`, the maximum to `max` |
| Scalers.StandardRoundTrip | src/preprocess.py:102-116 | for a value, `x * scale_ + mean_` undoes `(x - mean_) / scale_` and the other way round, whenever `scale_ != 0` |
| Scalers.SumShifted | src/preprocess.py:99 | subtracting `mean_` from every entry of a column subtracts it once per entry from the column sum |
| Scalers.SumDivided | src/preprocess.py:99 | dividing every entry of a column by a non-zero `scale_` divides the column sum by it |
| Scalers.DeviationsSumZero | src/preprocess.py:82-99 | the deviations of a column from its `mean(axis=0)` sum to 0 |
| Scalers.StandardizedMeanZero | src/preprocess.py:82-100 | a column standardised with its own mean has mean 0, whatever the non-zero scale |
| Scalers.MinMaxScaleAllBounds | src/preprocess.py:44-52 | scaling a frame by its own column statistics: no range is zero when no column is constant; each column's minimum goes to `min`, its maximum to `max`, and all values into [min, max] |
| Scalers.MinMaxFitTransformExtremes | src/preprocess.py:44-52 | after `fit_transform` with `min <= max`, each scaled column's minimum is exactly `min` and its maximum exactly `max` |
| Scalers.StandardScaleAllMeanZero | src/preprocess.py:98-99 | each column of a frame standardised by its own column means has mean 0 |
| Scalers.MinMaxScaler.constructor | src/preprocess.py:29-31 | `feature_range` defaults to (0, 1); nothing is fitted yet |
| Scalers.MinMaxScaler.Fit | src/preprocess.py:33-37 | stores the column minima, maxima and ranges, and the number of samples and features; the feature range is unchanged |
| Scalers.MinMaxScaler.RoundTrip | src/preprocess.py:54-70 | `inverse_transform(transform(X)) == X` and `transform(inverse_transform(X)) == X`, whenever no fitted range is 0 and `max != min` |
| Scalers.MinMaxScaler.FitTransform | src/preprocess.py:44-52 | fits, stores `X_std`, and returns `transform(X)`; each column's minimum maps to `min`, its maximum to `max`, every value into [min, max] |
| Scalers.StandardScaler.constructor | src/preprocess.py:79-80 | nothing is fitted yet |
| Scalers.StandardScaler.Fit | src/preprocess.py:82-86 | stores the column means, the given scales, and the number of samples and features |
| Scalers.StandardScaler.RoundTrip | src/preprocess.py:102-116 | `inverse_transform(transform(X)) == X` and `transform(inverse_transform(X)) == X`, whenever no scale is 0 |
| Scalers.StandardScaler.FitTransform | src/preprocess.py:93-100 | fits and returns `transform(X)`; every column of the result has mean 0 |
| RadarData.Missing | src/preprocess.py:236-245 | the names missing from the `.loc` selection are exactly the wanted names that are not columns |
| RadarData.WellbeingRow | src/preprocess.py:234-245 | one output record has exactly the keys Health, Wellbeing, Resilience, Hearing_ability; Resilience + Anxiety = 1 and Hearing_ability + Hearing_impairment = 1; an Anxiety (resp. Hearing_impairment) in [0, 1] gives a Resilience (resp. Hearing_ability) in [0, 1] |
| RadarData.MakeWellbeingData | src/preprocess.py:229-246 | raises KeyError for a missing Anxiety, then for a missing Hearing_impairment, then for a missing Health/Wellbeing (exactly the missing ones), and succeeds exactly when all four exist; on success the columns are exactly Health, Wellbeing, Resilience, Hearing_ability in that order, one row per input row, Resilience = 1 - Anxiety, Hearing_ability = 1 - Hearing_impairment, and Health and Wellbeing are copied |
| RadarData.WellbeingBounds | src/preprocess.py:229-246 | input answers in [0, 1] give all four output columns in [0, 1] |
| RadarData.RadarAngles | src/preprocess.py:341 | `np.linspace(0, 2π, n, endpoint=False)` yields n angles |
| RadarData.RadarAnglesSpacing | src/preprocess.py:341 | the angles (in turns) start at 0, each lies in [0, 1), consecutive ones are exactly 1/n apart |
| RadarData.RowValues | src/preprocess.py:347 | `data.values.flatten()` lists the row's values in column order |
| RadarData.RadarEntry | src/preprocess.py:331-350 | succeeds exactly when the row exists, there are at least 3 columns and the title has labels; fewer than 2 columns raises the "two columns" ValueError, exactly 2 the "three properties" ValueError, and a missing title a KeyError |
| RadarData.RadarEntryCoordinates | src/preprocess.py:341-358 | in a successful entry, spoke k has the cosine and sine of angle k / n, polygon point k is value k times (cos k, sin k), and label anchor k is 1.2 times (cos k, sin k); the title and labels are stored |
| RadarData.SpokeRadius | src/preprocess.py:347-350 | with cos² + sin² = 1, a point `v` along a spoke lies at squared distance v², a label at 1.44, and v² < 1.44 for v in [-1, 1] |
| RadarData.LabelsOutsidePolygon | src/preprocess.py:347-350 | for unit spokes, polygon point k lies at squared radius v², label k at 1.44, so a label lies strictly outside any value in [-1, 1] |
| RadarData.RadarLabelsOutsidePolygon | src/preprocess.py:341-350 | for an entry computed with cos² + sin² = 1, every label anchor lies at radius 1.2, outside every polygon point whose value lies in [-1, 1] |
| RadarData.PrepareFrame | src/preprocess.py:325-359 | the inner loop over participants: on success, both dictionaries have the keys 0..n-1 and hold each participant's entry and polygon; on failure, the index and error of the first failing participant, all earlier ones having succeeded |
| RadarData.PrepareRadarData | src/preprocess.py:322-359 | succeeds exactly when every (frame, participant) pass succeeds; then both dictionaries have exactly the frame names as keys, and each inner dictionary has the keys 0..n-1 holding that pass's entry and polygon; on failure the error is the one of the first failing pass in loop order |

## Left out

- Downloading the data set (`get_dataframe`) and the pickle cache (`load_data`) are I/O. The model starts from rows that are already in memory.
- All bokeh figure construction and rendering, including the rendering loops of `get_radar_chart`, is left out: the figures are foreign, mutable library objects.
- matplotlib's `plt.cm.plasma` and `rgb2hex` are foreign. `CreateTimeColorMap` takes them as function parameters.
- `np.sin`, `np.cos` and the factor 2π are floating-point trigonometry. Angles are kept as fractions of a turn, and cosine and sine of a turn fraction are parameters. Only `SpokeRadius`, `LabelsOutsidePolygon` and `RadarLabelsOutsidePolygon` assume `cos² + sin² = 1`, as a precondition.
- Scalers.StandardScaler.Fit: does not compute `var_` and `scale_ = sqrt(var_)`; these are floating point, so the per-column scales are a parameter (the mean is computed, exactly).
- `df.round(2)`, the `rescale` pipeline, and the float means behind `sound_category_sums` are floating-point numerics and are not modelled. All arithmetic is over exact reals.
- Parsing `Form_finish_time` with `pd.to_datetime` is not modelled: the hour of day is a given integer in 0..23.
- The trivial accessors, the column selectors `make_noise_sense_data`/`make_traits_radar`, `get_dataframe_dict` and `get_df_to_plot` are not modelled. `PrepareRadarData` takes the chart frames as given.
- `TITLE_LABEL_MAPPER` and `TOOLTIPS` live in `src/constants.py`, which is not part of this model. The label mapper is a parameter of the radar loop.
- Scalers.MinMaxScaler.InverseTransform: requires a fitted scaler and a feature range with `max != min`. Before `fit` the source raises AttributeError, and a range `(a, a)` makes numpy divide by zero (inf/NaN); neither is modelled. The dashboard never calls `inverse_transform`.
- Scalers.StandardScaler.InverseTransform: requires a fitted scaler. Before `fit` the source raises AttributeError, which is not modelled.
- Scalers.MinMaxScaler.Transform: requires a fitted scaler with no zero range. Before `fit` the source raises AttributeError, and for a constant column numpy divides by zero (NaN/inf); neither is modelled.
- Scalers.MinMaxScaler.Fit: requires a non-empty, rectangular frame. On an empty frame pandas gives NaN minima and maxima, which are not modelled; the dashboard fits only the data set's non-empty columns.
- Scalers.StandardScaler.Fit: requires a non-empty, rectangular frame, for the same reason (an empty frame has a NaN mean).
- Scalers.StandardScaler.FitTransform: requires non-zero scales. A zero scale gives NaN/inf in numpy, which is not modelled.
- Scalers.StandardScaler.Transform: requires a fitted scaler with non-zero scales. A zero scale gives NaN/inf in numpy, which is not modelled.
- Scalers.MinMaxScaler.FitTransform: requires a non-empty frame whose columns are not constant (numpy would produce NaN for a constant column). `feature_names_in_` is not stored: the model has no column names.
- Participants.SortByAgePreserveOrder: participants with equal first ages are ranked by first appearance. The source leaves this tie order unspecified, so the lemmas do not depend on it beyond the model's choice.
- Location.MostFrequent: ties between equally frequent locations are broken in favour of the first in row order. That order is not specified for pandas `value_counts`.
- PlotLabels.SoundCategoryLabel: requires an `_` in the column name. The IndexError that `split("_")[1]` raises on a name without one is not modelled; every sound-category column has one.
- Location.InsertSpaces: the regex's `\w` is modelled by `IsWordChar` as the ASCII letters, digits and `_`. Python's `\w` also matches non-ASCII letters and digits.
- Text.Capitalize: upper- and lower-cases ASCII letters only. Python's `str.capitalize` also title-cases other Unicode letters.
- `Location8` is taken to be a string, and missing values (NaN) in any column are not modelled.
- `int_indices` (`astype("category").cat.codes`) and re-indexing the frame are not modelled.
