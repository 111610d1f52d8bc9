# Transaction risk pipeline — a verified Dafny model

This project models the core of a bank-transaction risk pipeline, which runs in four steps:

1. **Cleaning.** The loaded frame loses its rows with missing values and its duplicate rows, and keeps the first occurrence of each row.
2. **Feature building.** Every transaction gets:
   - its day bucket;
   - the aggregates of its originating account (`nameOrig`): count, sum, mean, max and sample std of `amount`;
   - a z-score of its amount within the account;
   - a per-account, per-day velocity count;
   - the ledger residual `errorBalanceOrig`.
3. **Scoring.** Each of six numeric columns is normalised through the standard normal CDF. The six scores of a row are averaged and multiplied by 100 into `final_risk_score`, which is then banded into Low / Medium / High / Critical Risk.
4. **Reports.** These compute:
   - the flagged-row extract and the per-customer summary (highest score, last band);
   - the figures of the text report: flagged percentage, risk status, band distribution with histogram bars, and the two top-5 lists.

Modules, one file each:

- `wrappers.dfy`: `Option` and `Result`.
- `seqs.dfy`: the generic pandas operations the pipeline uses:
  - boolean-mask filtering;
  - `drop_duplicates(keep='first')`;
  - `groupby`;
  - `sort_values(ascending=False).head(k)`.
- `stats.dfy`: sum, mean, max, sample variance and sample std (divisor n − 1). The square root and the normal CDF are function parameters constrained by `IsSqrt` and `IsCdf`.
- `frames.dfy`: the transaction frame. It is a `class` with one field per column group, and a column group not yet added is `None`.
- `data_manager.dfy`, `feature_builder.dfy`, `risk_score.dfy`, `report.dfy` and `generate_reports.dfy`: one module per source file.

How each part of the source is modelled:

- **The frame-mutating steps are methods on objects.**
  - `clean_data` cleans its table in place and returns it.
  - `built_feature` writes `day` into the caller's frame, then returns a new joined frame.
  - `compute_scores` writes its score columns one by one in a loop, then the final score and band, into the frame it was given.
- **The reports are functions over a sequence of scored rows.**
- **Missing values.** pandas NaN values that the code itself produces are `None`. These arise from:
  - a std over fewer than two values;
  - a std of zero replaced by NaN;
  - a mean over no defined cells.

## Model

| member | source | states |
|---|---|---|
| RiskScore.ScoreBand | src/RiskScore/risk_score.py:10-18 | each band holds exactly on its range (< 40, [40, 70), [70, 90), ≥ 90), so the four bands partition the reals |
| RiskScore.ScoreBandBoundaries | src/RiskScore/risk_score.py:13-18 | 40, 70 and 90 belong to the upper band; values just below stay in the lower band |
| RiskScore.ScoreBandMonotone | src/RiskScore/risk_score.py:10-18 | a larger score never gets a lower band in the order Low < Medium < High < Critical |
| RiskScore.BandOf | src/RiskScore/risk_score.py:11-18 | the same comparison chain on a cell that may be NaN, with every comparison false on NaN: an undefined final score falls through to Critical Risk, and a defined one gets exactly `score_band` of it |
| RiskScore.ScoreOfConstant | src/RiskScore/risk_score.py:31-40 | a constant column of two or more rows has std 0 and scores exactly 0 in every row |
| RiskScore.ScoreOfVarying | src/RiskScore/risk_score.py:31-38 | a non-constant column has a positive std, and each row scores phi((x − mean) / std) |
| RiskScore.ScoreOfShort | src/RiskScore/risk_score.py:32-38 | a column of fewer than two rows has a NaN sample std, which passes `std != 0`, so every score is undefined |
| RiskScore.ScoreDefinedIff | src/RiskScore/risk_score.py:31-40 | a score cell is defined exactly when its column has at least two rows |
| RiskScore.ScoreBounded | src/RiskScore/risk_score.py:38 | given a CDF with values in [0, 1], every defined score lies in [0, 1] |
| RiskScore.ScoreMonotone | src/RiskScore/risk_score.py:35-38 | within one column, a larger value is defined exactly when a smaller one is, and never gets a smaller score |
| RiskScore.RowScoreBounded | src/RiskScore/risk_score.py:43 | the NaN-skipping row mean of scores in [0, 1], times 100, lies in [0, 100] |
| RiskScore.FinalBounded | src/RiskScore/risk_score.py:43 | every defined `final_risk_score` lies in [0, 100] |
| RiskScore.FinalIsMeanOfScores | src/RiskScore/risk_score.py:24-43 | with the six numeric columns, a row's final score is defined exactly when the frame has at least two rows; it is then 100 times the mean of the row's six scores, in `numeric_cols` order |
| RiskScore.WriteScoreColumn | src/RiskScore/risk_score.py:34-40 | `data[f'{col}_zscore'] = ...` sets that one score column and no other |
| RiskScore.ScoreNumericColumns | src/RiskScore/risk_score.py:29-41 | the loop writes the score column of each numeric column in order, stops with the first missing numeric column (the KeyError), and leaves the score columns after it as they were |
| RiskScore.FinishScores | src/RiskScore/risk_score.py:43-44 | writes `final_risk_score` as the row means of the six score columns of the current inputs, and `risk_band` as their bands |
| RiskScore.ComputeScores | src/RiskScore/risk_score.py:21-49 | a missing frame raises; an empty frame is accepted; the input columns never change; a missing numeric column fails after the earlier score columns were written; otherwise final score and band are written and the same frame is returned |
| RiskScore.Rescore | src/RiskScore/risk_score.py:21-46 | scoring an already scored frame again gives identical final scores and bands |
| Frames.Frame.Column | src/RiskScore/risk_score.py:31 | `data[col]` of a numeric column is present exactly when its column group is, with one value per row |
| Frames.Frame.FirstMissing | src/RiskScore/risk_score.py:30-32 | the position in `numeric_cols` of the first column the frame lacks: all before it are present, and it is absent |
| Frames.Frame.Join | src/FeatureBuilder/feature_builder.py:19-25 | the joined frame keeps the rows, row order and columns of its input and carries the aggregate, z-score, velocity and residual columns |
| FeatureBuilder.Day | src/FeatureBuilder/feature_builder.py:13 | `ceil(step / 24)`: the day d with 24(d − 1) < step ≤ 24d |
| FeatureBuilder.DayExamples | src/FeatureBuilder/feature_builder.py:13 | steps 1 to 24 are day 1, 25 is day 2, 49 is day 3, 0 is day 0 |
| FeatureBuilder.DayMonotone | src/FeatureBuilder/feature_builder.py:13 | a later step never gets an earlier day |
| FeatureBuilder.JoinStats | src/FeatureBuilder/feature_builder.py:15-19 | one aggregate row per transaction, in frame order: the aggregates of the amounts of its own account |
| FeatureBuilder.SameAccountSameStats | src/FeatureBuilder/feature_builder.py:15-19 | rows with the same `nameOrig` carry identical count, total, mean, max and std |
| FeatureBuilder.AggregateFacts | src/FeatureBuilder/feature_builder.py:16-17 | `count_transaction` is the number of rows of the account (≥ 1), `total_amount` their sum, `avg_amount` the total over the count, and `max_amount` is one of the amounts and ≥ the mean |
| FeatureBuilder.AggregateOf | src/FeatureBuilder/feature_builder.py:16-17 | the same facts for one group of amounts |
| FeatureBuilder.StdFacts | src/FeatureBuilder/feature_builder.py:16 | `std_amount` is NaN exactly for single-row accounts; otherwise it is non-negative and zero exactly when the account's amounts are all equal |
| FeatureBuilder.ZScore | src/FeatureBuilder/feature_builder.py:21 | the z-score is defined exactly when the std is defined and non-zero, and then z · std = amount − mean (no division by zero) |
| FeatureBuilder.ZScoreDefinedIff | src/FeatureBuilder/feature_builder.py:21 | a row's z-score is defined exactly when its account has two or more amounts that are not all equal |
| FeatureBuilder.VelocityFacts | src/FeatureBuilder/feature_builder.py:23 | `daily_velocity_count` is the number of rows with the same (`nameOrig`, `day`), between 1 and the account's `count_transaction` |
| FeatureBuilder.ErrorBalance | src/FeatureBuilder/feature_builder.py:25 | the residual is zero exactly when `newbalanceOrig == oldbalanceOrg − amount` |
| FeatureBuilder.ErrorBalanceExamples | src/FeatureBuilder/feature_builder.py:25 | (old 1000, amount 200, new 800) gives 0; (1000, 200, 1000) gives 200 |
| FeatureBuilder.JoinFeatures | src/FeatureBuilder/feature_builder.py:19-25 | a new frame with the input's rows in order, every input column, and the aggregate, z-score, velocity and residual columns |
| FeatureBuilder.BuiltFeature | src/FeatureBuilder/feature_builder.py:9-27 | a missing or empty frame raises before anything changes; otherwise `day` is written into the caller's frame and nothing else there changes; a frame that already has the aggregate columns fails the join; otherwise the joined frame is returned |
| DataManager.CleanIsComplete | src/DataManager/data_manger.py:22 | no cleaned row has a missing value |
| DataManager.CleanMembers | src/DataManager/data_manger.py:22-23 | a row survives exactly when it is a complete input row |
| DataManager.CleanKeepsOneOfEach | src/DataManager/data_manger.py:23 | every distinct complete input row occurs exactly once in the result, no other row occurs, and no two result rows are equal |
| DataManager.CleanIsSubsequence | src/DataManager/data_manger.py:22-23 | the cleaned rows are input rows in their original relative order |
| DataManager.CleanKeepsFirstOrder | src/DataManager/data_manger.py:23 | cleaned rows are ordered by the position of their first occurrence in the input |
| DataManager.CleanIdempotent | src/DataManager/data_manger.py:22-24 | cleaning a cleaned frame changes nothing |
| DataManager.CleanData | src/DataManager/data_manger.py:19-26 | a missing frame gives nothing back; otherwise the given frame's rows are replaced in place by the cleaned rows and that same frame is returned |
| Seqs.Filter | src/GenerateReports/generate_reports.py:21 | a mask filter keeps exactly the elements that pass, and never lengthens the sequence |
| Seqs.FilterCount | src/GenerateReports/generate_reports.py:21 | a mask filter keeps every occurrence of a passing value and none of a failing one |
| Seqs.DropDuplicates | src/DataManager/data_manger.py:23 | the result holds the same values as the input, each once |
| Seqs.GroupBy | src/FeatureBuilder/feature_builder.py:15 | one group per distinct key, holding the values of exactly that key's rows in row order, never empty |
| Seqs.TopK | model/reports/report.py:27 | `sort_values(ascending=False).head(k)`: min(k, n) elements, non-increasing by key, drawn from the input, and none left out outranks one kept |
| Stats.StdZeroIffConstant | src/RiskScore/risk_score.py:32 | the sample std of two or more values is non-negative and zero exactly when the values are all equal |
| Report.Flagged | model/reports/report.py:18 | the flagged rows are exactly the suspicious rows, each as often as it occurs |
| Report.FlaggedInOrder | src/GenerateReports/generate_reports.py:21 | the flagged extract keeps the frame's row order |
| Report.Percentage | model/reports/report.py:24 | 0 for an empty frame, never negative, positive when some row is flagged, at most 100 when part ≤ whole |
| Report.PercentageValue | model/reports/report.py:24 | for a non-empty frame the percentage is part / whole × 100, stated as p · whole = part · 100 |
| Report.RiskStatus | model/reports/report.py:47-52 | HIGH exactly above 5 percent, MEDIUM exactly in (2, 5], LOW exactly at or below 2 |
| Report.RiskStatusBoundaries | model/reports/report.py:47-52 | exactly 5 percent is MEDIUM and exactly 2 percent is LOW |
| Report.RiskStatusMonotone | model/reports/report.py:47-52 | a larger flagged percentage never gives a lower status |
| Report.ValueCounts | model/reports/report.py:25 | each distinct value once, with its number of occurrences (≥ 1), most frequent first |
| Report.ValueCountsLookup | model/reports/report.py:25 | the count listed for a value is its number of occurrences, 0 when unlisted |
| Report.RiskDistribution | model/reports/report.py:25 | a band is listed exactly when some row has it, once, with the number of rows in that band, most frequent first |
| Report.DistributionCoversRows | model/reports/report.py:25 | the band counts add up to the number of transactions |
| Report.BarLength | model/reports/report.py:69 | `int(percent // 2)`: the floor of percent/2, non-negative for a non-negative percent, at most 50 for percent ≤ 100 |
| Report.LineOf | model/reports/report.py:68-69 | a histogram line's percentage of the total and its bar; for a count in (0, total] the percentage lies in (0, 100] and the bar in [0, 50] |
| Report.Lines | model/reports/report.py:67-70 | the loop over `value_counts` entries produces one line per entry, in order |
| Report.DistributionLines | model/reports/report.py:67-69 | each line carries its band, its count, its percentage in (0, 100] of all transactions and its bar in [0, 50] |
| Report.Top5Flagged | model/reports/report.py:26 | at most 5 distinct accounts, each with its number of flagged rows (≥ 1), counts non-increasing |
| Report.Top5FlaggedMaximal | model/reports/report.py:26 | a flagged account left out means five are listed, each with at least as many flagged rows |
| Report.Top5Risky | model/reports/report.py:27 | min(5, n) rows, scores non-increasing, drawn from the frame, and no row left out scores higher than a listed one |
| Report.ReportMetrics | model/reports/report.py:22-27 | `total_transactions` is the row count and `total_flagged` the number of suspicious rows; the flagged percentage is `Percentage` of those two (so total_flagged / total × 100 by `PercentageValue`), in [0, 100] and 0 for an empty frame; the status is HIGH above 5, MEDIUM above 2 up to 5, LOW otherwise; the distribution and both top-5 lists are `RiskDistribution`, `Top5Flagged` and `Top5Risky` of the frame |
| GenerateReports.AccountRows | src/GenerateReports/generate_reports.py:24 | a group holds exactly the rows of its account |
| GenerateReports.CustomerSummary | src/GenerateReports/generate_reports.py:24-27 | exactly one summary line per distinct `nameOrig` |
| GenerateReports.SummaryScoreIsMax | src/GenerateReports/generate_reports.py:25 | the summary score is ≥ every score of the account's rows and equal to one of them |
| GenerateReports.SummaryBandIsLast | src/GenerateReports/generate_reports.py:26 | the summary band is the band of the account's last row in frame order |
| GenerateReports.SummaryBandNotOfMaxScore | src/GenerateReports/generate_reports.py:25-26 | when the top-scoring row comes earlier with another band, the summary pairs the top score with the last band, not the band of the top score |
| GenerateReports.GenerateReports | src/GenerateReports/generate_reports.py:16-39 | a missing frame produces nothing and does not raise; otherwise the outputs are the flagged extract (`Flagged`), the customer summary (`CustomerSummary`, one line per account) and the report figures (`ReportMetrics`), with the flagged total matching the extract |

## Left out

- Square root and `norm.cdf`: these are parameters. The properties assume only what `IsSqrt` (non-negative, and zero exactly at zero) and `IsCdf` (monotone, values in [0, 1]) state; numerical accuracy is not modelled.
- NaN: only the NaN values the code produces are modelled, as `None`. NaN inputs are not modelled: the model assumes the frame was cleaned first, which the console does not enforce (menu choice 3 builds features on any loaded frame), and pandas `count`/`mean` would skip NaN amounts there.
- Report rows carry a real `final_risk_score`. A NaN final score, which only a frame of fewer than two rows gives, does not reach the report model, and neither does where `sort_values` puts NaN.
- GenerateReports.CustomerSummary: the summary is a map, so the ascending key order of the `groupby` output is not modelled.
- Report.ValueCounts: the order of values with equal counts is not pinned down by the contract, because pandas does not specify that order.
- Report.Top5Flagged and Report.Top5Risky: for the same reason, which of several equal-count (or equal-score) entries is listed first, or listed at all at the cut-off, is not pinned down.
- FeatureBuilder.Day: the `astype(np.int32)` truncation to 32 bits is not modelled; days are unbounded integers.
- I/O is not modelled:
  - `load_data`;
  - the CSV, text and PDF writing;
  - the text formatting of report lines (widths, padding, number formats);
  - the console application;
  - the banner constants;
  - the messages that `clean_data` and `generate_reports` print for a missing frame (only the absence of a result is modelled).
- TransactionFlagger is not part of this model. `is_suspicious` is an input field of a scored row.
- Frame columns that the pipeline neither reads nor writes are not modelled. A transaction holds the five raw columns that are read.
- The cleaned table is generic: a row is a sequence of optional cells. Its link to the transaction frame is not modelled.
- Exceptions are error values, not their Python types:
  - the `ValueError` for a missing or empty frame is `EmptyOrNone`;
  - the `KeyError` on a numeric column the frame lacks is `MissingColumn`;
  - the pandas error for a join whose columns overlap is `OverlappingColumns`.
- `Frames.Frame.constructor` and `DataManager.Table.constructor` stand in for loading a file and state nothing about the source.

Behaviours of the code that differ from what its feature and column names suggest; the model keeps the code's behaviour:

- Both std computations use pandas' sample std (divisor n − 1), not the population std.
- `compute_scores` rejects only a missing frame. An empty frame is scored rather than rejected, and every cell is undefined.
- A missing numeric column stops scoring part-way instead of leaving the frame untouched: the score columns before it have already been written.
- The `*_zscore` columns are computed over the whole column, not per account. So an account whose amounts are all equal does not, on its own, give zero scores. `ScoreOfConstant` states the column-level rule.
- `final_risk_score` is undefined (NaN) in a frame of a single row, so the [0, 100] bound holds for defined scores only. A NaN final score is banded Critical Risk.
