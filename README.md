# Charity classification tool: verified model of the evaluation core

The charity classification tool lets a person write a regular expression for a
category (an ICNPTSO code) or a tag, scores it against a set of manually tagged
charity records, and keeps the last successfully evaluated pattern per category,
with its scores, in a shared table. This
project models that core in Dafny and proves what it promises:

- **Record evaluation** (`data.dfy`, module `Data`, from `tagger/data.py`): the
  searchable text of each record, the tag frequency table, the join of fetched label
  rows with those frequencies, the four-way confusion partition of a pattern's result
  and its summary (counts, precision, recall, F1, accuracy). Metrics are `Option<real>`
  over natural-number counts; a NaN of pandas (0/0) is `None`.
- **Category page** (`categories.dfy`, module `Categories`, from
  `tagger/page_icnptso.py`): which include/exclude patterns to show for a category,
  and the commit of a successful evaluation into the category table, a class whose
  `Commit` method updates the table in place and logs the two saves it triggers.
- **All-categories page** (`table_view.dfy`, module `TableView`, from
  `tagger/page_icnptso_all.py`): the "with/without pattern" choice, the code filter,
  the ordering, the counts under the table and the statistic cells.
- **Helpers** (`utils.dfy`, module `Utils`, from `tagger/utils.py`): the colour class of
  a statistic and the display name of a tag.
- **Support**: `ordering.dfy` (module `Ordering`) models pandas' `sort_values` on one
  column, with missing values last in both directions, as an insertion sort proved
  ordered and a permutation; `regex.dfy` (module `Regex`) holds the regular-expression
  engine as an injected capability (does a pattern compile, does it match a text with
  case ignored) and `DEFAULT_REGEX`; `wrappers.dfy` holds `Option` and `Result`.

Two points where the code behaves differently from what a reader might expect, and
where the model follows the code:

- The searchable text uses `activities.fillna(objects)`, so objects replace activities
  only when activities is null, not when it is an empty string. When both are null,
  `" ".join` fails on the null, so `Data.Corpus` returns `None` for such a record set.
- The page `tagger/page_icnptso.py` calls a five-argument `get_keyword_result` and
  other helpers that `tagger/data.py` does not define. The model takes that evaluator
  as an abstract function (`Categories.Evaluator`) that returns a result frame or a
  pattern-error message.

## Model

| member | source | states |
|---|---|---|
| Data.CorpusText | tagger/data.py:9-11 | a record's text exists iff activities or objects is non-null; it is the name, one space, then activities, or objects when activities is null |
| Data.Corpus | tagger/data.py:9-11 | one text per record in record order, defined iff every record's text is |
| Data.RemoveAll | tagger/data.py:12-17 | dropping one value removes exactly its occurrences and keeps every other entry |
| Data.ValueCounts | tagger/data.py:12-22 | each distinct tag entry appears once, with frequency equal to its number of entries, which is at least 1; every entry's tag appears |
| Data.ValueCountsTotal | tagger/data.py:12-22 | the frequencies add up to the number of tag entries |
| Data.TotalFrequencyAppend | tagger/data.py:12-22 | the total frequency of two tables laid end to end is the sum of their totals |
| Data.TotalFrequencyRemove | tagger/data.py:12-22 | taking one row out of a table takes its frequency out of the total |
| Data.TotalFrequencyPermutation | tagger/data.py:17-22 | reordering a frequency table does not change its total |
| Data.TagsUsed | tagger/data.py:12-22 | `tags_used` holds exactly the value counts of all tag entries, ordered by non-increasing frequency |
| Data.TagsUsedFrequencies | tagger/data.py:12-22 | every row of `tags_used` carries its tag's number of entries, at least 1 |
| Data.TagsUsedCoversEntries | tagger/data.py:12-22 | every tag entry of every record has a row in `tags_used` |
| Data.TagsUsedTotal | tagger/data.py:12-22 | the frequencies of `tags_used` add up to the number of tag entries |
| Data.TagsUsedOrdered | tagger/data.py:17 | frequencies never increase down `tags_used` |
| Data.LookupValueCounts | tagger/data.py:46-54 | the join gives a label the number of entries of its tag when the tag occurs, and no frequency otherwise |
| Data.GetTagsUsed | tagger/data.py:33-56 | one output row per fetched label row, ordered by non-increasing frequency with missing frequencies last |
| Data.GetTagsUsedRows | tagger/data.py:33-56 | `get_tags_used` keeps every fetched label row exactly once, each with its tag's frequency or none |
| Data.GetTagsUsedNoZero | tagger/data.py:46-54 | no label row has a frequency of 0; labels never seen have no frequency |
| Data.GetTagsUsedOrdered | tagger/data.py:56 | frequencies never increase down the output, and labels without a frequency come last |
| Data.Relevant | tagger/data.py:61 | a record is relevant iff the tag is among its tag entries, so a null or empty list is never relevant |
| Data.AssignWhere | tagger/data.py:68-71 | one `.loc` assignment: the rows matching the (selected, relevant) mask get the result type, the others keep theirs |
| Data.KeywordResult | tagger/data.py:59-72 | fails iff the pattern does not compile; otherwise one row per record, selected iff the pattern matches its text, relevant iff its tag list contains the tag, and each row classified by its pair alone |
| Data.TwoResultTypesAtMostAll | tagger/data.py:80-81 | two different result types never count more rows than there are |
| Data.Ratio | tagger/data.py:82-87 | a count ratio is NaN iff its denominator is 0, otherwise lies in [0, 1] and times the denominator gives the numerator |
| Data.F1Score | tagger/data.py:88-91 | F1 is NaN iff precision or recall is NaN or p + r = 0; otherwise F1·(p+r) = 2pr, and it lies in [0, 1] when p and r do |
| Data.HarmonicMeanBounds | tagger/data.py:88-91 | a harmonic mean of two values in [0, 1] lies in [0, 1] |
| Data.Scores | tagger/data.py:82-94 | the counts are kept; precision = TP/(TP+FP), recall = TP/(TP+FN) and accuracy = (TP+TN)/n, each NaN exactly at its zero denominator; F1 is `F1Score` of precision and recall, NaN iff either denominator or TP is 0, and a defined F1 lies in [0, 1] |
| Data.Summarize | tagger/data.py:75-94 | the summary of a frame: TP+TN and FP+FN never exceed the number of rows, and accuracy is NaN iff the frame is empty |
| Data.GetResultSummary | tagger/data.py:75-95 | the dict filled by the loop over the result types equals the summary of the frame |
| Data.SummaryPartition | tagger/data.py:77-81 | relevant = TP+FN, selected = TP+FP, and the four counts add up to the number of records |
| Data.CountsPartition | tagger/data.py:77-81 | on a classified frame the four counts partition the rows |
| Data.SummaryMetrics | tagger/data.py:82-94 | precision is NaN iff nothing is selected, recall iff nothing is relevant, accuracy iff there are no records; each defined metric lies in [0, 1] |
| Data.SummaryValues | tagger/data.py:82-87 | on a classified frame each defined metric is its count ratio: precision = TP/selected, recall = TP/relevant, accuracy = (TP+TN)/n |
| Data.SummaryF1Defined | tagger/data.py:88-91 | F1 is NaN iff nothing is selected, nothing is relevant or there is no true positive |
| Data.WorkedExample | tagger/data.py:82-94 | TP=8, FP=2, FN=2, TN=88 gives precision, recall and F1 of 0.8 and accuracy 0.96 |
| Ordering.LexLeTotal | tagger/page_icnptso_all.py:128-130 | Python's string order is total |
| Ordering.LexLeTransitive | tagger/page_icnptso_all.py:128-130 | Python's string order is transitive |
| Ordering.PrecedesTotal | tagger/page_icnptso_all.py:128-130 | of two keys one may always precede the other, missing values last |
| Ordering.PrecedesTransitive | tagger/page_icnptso_all.py:128-130 | the sort order with missing values last is transitive |
| Ordering.Insert | tagger/page_icnptso_all.py:128-130 | inserting into a sorted sequence keeps it sorted and adds exactly that element |
| Ordering.SortBy | tagger/page_icnptso_all.py:128-130 | `sort_values` output is ordered in the chosen direction with missing values last, and is a permutation of its input |
| Utils.StatColour | tagger/utils.py:29-34 | green iff above 0.75, yellow iff in (0.5, 0.75], red iff at most 0.5 or NaN |
| Utils.StatColourMonotonic | tagger/utils.py:29-34 | a higher statistic never gets a worse colour |
| Utils.Join | tagger/utils.py:55 | a join starts with its first part, and a single part joins to itself |
| Utils.TagNameParts | tagger/utils.py:49-54 | Category first; Subcategory next iff it is a string differing from the tag ignoring case; the tag last iff it differs from Category ignoring case |
| Utils.GetTagName | tagger/utils.py:49-55 | the appended parts joined with " - "; the name starts with Category, and is just Category when there is no Subcategory and the tag equals Category ignoring case |
| Categories.Slug | tagger/page_icnptso.py:90 | the slug is the path after its first nine characters, empty for a shorter path |
| Categories.IndexOfCode | tagger/page_icnptso.py:91-95 | finds nothing iff no row has the code, otherwise the first row that has it |
| Categories.CategoryTable.CategoryRegexSetup | tagger/page_icnptso.py:87-104 | an unknown slug gives the default pattern and ""; a known one gives the stored patterns, an empty or null include replaced by the default and an empty or null exclude by ""; the include shown is never empty |
| Categories.OrDefault | tagger/page_icnptso.py:100-103 | a stored pattern is shown when it is non-null and non-empty, the fallback otherwise; a non-empty fallback gives a non-empty pattern |
| Categories.Scored | tagger/page_icnptso.py:150-154 | a scored row keeps its id, code, exclude pattern and frequency, holds the new pattern, holds NaN in a metric exactly where the summary leaves it undefined, and otherwise holds the summary's value |
| Categories.SetWhereId | tagger/page_icnptso.py:150-154 | the row with the label is scored and the others keep their id, code, patterns and frequency; when the metric columns are new, every other row gets NaN in them, otherwise it is unchanged |
| Categories.CommitRows | tagger/page_icnptso.py:124-154 | an unknown code or a pattern error leaves the table as it was; every row keeps its id, code, exclude pattern and frequency |
| Categories.CategoryTable.Commit | tagger/page_icnptso.py:124-156 | an unknown code or a pattern error leaves the whole object unchanged and returns placeholders or the message; a success replaces the table by the committed one, marks the metric columns as present, returns the summary and logs one save of the patterns and one save of the new table |
| Categories.CommitTouchesOnlyItsRow | tagger/page_icnptso.py:150-154 | with distinct row labels a success changes only the pattern and the four metrics of the category's row, and every other row at most by the NaN cells of newly created metric columns; failures change nothing |
| Categories.IndexOfCodeByCodes | tagger/page_icnptso.py:129 | the lookup depends on the codes alone |
| Categories.CommitIdempotent | tagger/page_icnptso.py:140-154 | committing the same patterns for the same category twice leaves the table as committing once, the first success having created the metric columns |
| Categories.HeaderNoun | tagger/page_icnptso.py:210-214 | the header noun is the type's name with spaces for hyphens, plus "s" iff the count is not 1 |
| Categories.TypeIndices | tagger/page_icnptso.py:257 | the positions of the rows of one result type, each exactly once and in increasing order |
| Categories.Pick | tagger/page_icnptso.py:257 | the records at the given positions, in the given order |
| Categories.RecordsOfType | tagger/page_icnptso.py:257 | the records of one result type number exactly that type's count |
| Categories.RecordsOfTypeSelects | tagger/page_icnptso.py:257 | `df.loc[result == t]` is exactly the records at the positions of type `t`, in record order |
| Categories.SampleRecords | tagger/page_icnptso.py:257-259 | a sample list holds the first min(10, count) records of its type |
| TableView.Where | tagger/page_icnptso_all.py:118-123 | boolean indexing keeps each row satisfying the condition as often as it occurs, and no other |
| TableView.WhereSplits | tagger/page_icnptso_all.py:168-171 | splitting by a condition and its negation shares the rows out exactly |
| TableView.ShowRows | tagger/page_icnptso_all.py:117-121 | "with" keeps exactly the rows with a pattern, "without" those without, any other choice all rows |
| TableView.WithWithoutPartition | tagger/page_icnptso_all.py:118-121 | "with" and "without" partition the table |
| TableView.OrderColumn | tagger/page_icnptso_all.py:125-126 | each of the four statistic names picks its column; anything else picks Code |
| TableView.MetricKey | tagger/page_icnptso_all.py:128-130 | a statistic sorts as missing iff it is not a finite number |
| TableView.SortKey | tagger/page_icnptso_all.py:125-130 | ordering by Code uses the code text; frequency is missing iff the category has none |
| TableView.View | tagger/page_icnptso_all.py:117-130 | fails iff a non-empty filter is not a valid pattern or the order column is a metric column the table does not have yet; otherwise holds exactly the table's rows that pass the choice and match the filter ignoring case, ordered ascending iff the direction is "ascending", missing values last |
| TableView.CategoryStats | tagger/page_icnptso_all.py:162-171 | shown and total are the view's and the table's sizes; have and need are the sizes of the "with" and "without" selections |
| TableView.StatsConsistent | tagger/page_icnptso_all.py:162-171 | have + need = total, and shown ≤ total |
| TableView.StatCellAsWritten | tagger/page_icnptso_all.py:108-114 | a dash iff the cell holds no float; otherwise a percentage in its `stat_colour` class |
| TableView.StatCellAsWrittenDrawsNaN | tagger/page_icnptso_all.py:108-114 | a NaN statistic is drawn as a red percentage |
| TableView.StatCell | tagger/page_icnptso_all.py:108-114 | a dash iff the cell holds no finite number; otherwise that number in its `stat_colour` class |
| TableView.StatCellCorrectsOnlyNaN | tagger/page_icnptso_all.py:108-114 | the two cell rules differ exactly on NaN |
| TableView.DrawRow | tagger/page_icnptso_all.py:134-155 | a drawn row shows the code, both patterns and the frequency; a statistic is a dash iff its cell holds no float, otherwise the cell's value as a percentage, NaN included |
| TableView.DrawRowIntended | tagger/page_icnptso_all.py:134-155 | the intended row: a dash exactly for the statistics that sort as missing |
| TableView.DrawRowDiffersOnlyOnNaN | tagger/page_icnptso_all.py:108-114 | the drawn and the intended row differ iff a shown statistic is NaN |
| TableView.FirstCommitDrawsNaN | tagger/page_icnptso.py:150-154 | after the first successful commit every other category holds NaN in f1score, drawn as a red percentage where a dash is intended |
| TableView.DrawTable | tagger/page_icnptso_all.py:132-157 | one drawn row per shown category, in the shown order |

## Left out

- Loading the records from a pickle (tagger/data.py:8): the records are an input sequence.
- The tag-store fetch in `get_tags_used` (tagger/data.py:34-43): its label rows are an input sequence; columns other than the id and the name are not modelled.
- `slugify` is a foreign library: it is a function parameter.
- The regular-expression engine (`str.contains`, `re.error`): an injected capability; what a pattern matches, and case-insensitivity, are not interpreted. Patterns are not checked for match groups, about which `str.contains` only warns.
- `Utils.Lower` folds ASCII letters only; Python's `str.lower` folds all of Unicode.
- `save_regex_to_airtable` and `save_icnptso_used` (tagger/page_icnptso.py:155-156): recorded as a log of calls on the table object, their effect on outside stores is not modelled.
- `get_icnptso_used`, `get_completed_data`, `get_all_charities` (income-band extrapolation), `save_icnptso_used` and the exclude-aware `get_keyword_result` imported by tagger/page_icnptso.py are not part of this model; the evaluator is an abstract function, and the "all charities" tab (tagger/page_icnptso.py:159-204) is left out with it.
- `get_icnptso_name` is not part of this model, so drawn rows and headers show no display name.
- Categories.CategoryTable.CategoryRegexSetup: the guard at tagger/page_icnptso.py:96 tests the truth value of a whole column, which pandas refuses; it is modelled as "the table has an exclude column".
- The "Regular expression", Code and frequency columns are taken to exist in the category table; only the exclude column and the four metric columns may be missing.
- The result frame `tag_regex_page` returns on the error paths, and the number of outputs it has, are not modelled; only which outcome is returned.
- Tag lists with null entries and float-NaN Tags cells (which make the relevance test raise) are not modelled: a tag list is a sequence of strings or null.
- The `tag_slug` column of `tags_used` (tagger/data.py:23) is not modelled: `slugify` is a foreign library and no modelled operation reads that column.
- Data.Occurrences: the row order of the unstacked Tags column is not modelled; only the multiset of entries matters to the counts.
- Sorting a column of mixed numbers and strings raises a TypeError in Python; the model orders numbers before strings instead. The tagger never sorts such a column.
- Ordering.SortBy: pandas' default sort is not stable, so the model promises an order and a permutation but not the order among equal keys.
- `highlight_regex`, `stats_box`, the median statistics, number and percentage formatting, and all Dash layouts and routing (including tagger/page_tag.py, tagger/index.py, tagger/page_main.py, tagger/app.py and tagger/settings.py apart from `DEFAULT_REGEX`).

## Findings

| source | as written | input that shows it | evidently intended | confidence | as-written member | corrected member |
|---|---|---|---|---|---|---|
| tagger/page_icnptso_all.py:110 | `stat_cell` draws a dash only for a value that is not a float; NaN is a float, so an unscored category is drawn as "nan%" in red | a table without metric columns in which one category is committed: the `.loc` assignments create the columns and every other category holds NaN | a dash for any statistic that is not a number, as for a missing column | medium (not executed) | TableView.FirstCommitDrawsNaN | TableView.DrawRowIntended |
