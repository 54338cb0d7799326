/** Model of the category page, tagger/page_icnptso.py: which include and exclude
    patterns to show for a category, the commit of a successful evaluation into the
    shared category table, and the per-result-type headers and sample lists. */
module Categories {
  import opened Wrappers
  import opened Regex
  import opened Utils
  import opened Data

  /** One row of the shared category table. `id` is the row's index label; a `None`
      pattern is a null cell; a `None` statistic is a cell that holds no float at all,
      while `Some(NaN)` is a float NaN. */
  datatype CategoryRow = CategoryRow(
    id: string,
    code: string,
    regex: Option<string>,
    excludeRegex: Option<string>,
    frequency: Option<nat>,
    precision: Option<Float>,
    recall: Option<Float>,
    f1score: Option<Float>,
    accuracy: Option<Float>)

  /** The table's index labels are distinct, so `.loc[label, column]` names one cell. */
  predicate DistinctIds(rows: seq<CategoryRow>)
  {
    forall a, b :: 0 <= a < b < |rows| ==> rows[a].id != rows[b].id
  }

  /** `pathname[9:]`: the page path with its "/icnptso/" prefix cut off; Python's slice
      gives "" for a shorter path. */
  function Slug(pathname: string): (slug: string)
    ensures |pathname| >= 9 ==> pathname[..9] + slug == pathname
    ensures |pathname| <= 9 ==> slug == ""
  {
    if |pathname| <= 9 then "" else pathname[9..]
  }

  /** The first row whose Code is `code` (`.loc[Code == code].iloc[0]`), if any. */
  function IndexOfCode(rows: seq<CategoryRow>, code: string): (i: Option<nat>)
    ensures i.None? <==> forall j :: 0 <= j < |rows| ==> rows[j].code != code
    ensures i.Some? ==> i.value < |rows| && rows[i.value].code == code
    ensures i.Some? ==> forall j :: 0 <= j < i.value ==> rows[j].code != code
  {
    if rows == [] then None
    else if rows[0].code == code then Some(0)
    else
      match IndexOfCode(rows[1..], code)
      case None => None
      case Some(k) => Some(k + 1)
  }

  /** A stored pattern, or `fallback` when the cell is null or empty (`not x or pd.isna(x)`). */
  function OrDefault(stored: Option<string>, fallback: string): (shown: string)
    ensures stored.Some? && stored.value != "" ==> shown == stored.value
    ensures stored.None? || stored.value == "" ==> shown == fallback
    ensures fallback != "" ==> shown != ""
  {
    if stored.Some? && stored.value != "" then stored.value else fallback
  }

  /** A metric of the summary as the table stores it: an undefined metric is a float NaN. */
  function ToFloat(m: Option<real>): Float
  {
    if m.Some? then Finite(m.value) else NaN
  }

  /** No metric cell of the row holds anything: the table has no metric columns yet. */
  predicate Unscored(row: CategoryRow)
  {
    row.precision.None? && row.recall.None? && row.f1score.None? && row.accuracy.None?
  }

  /** A row after a successful evaluation: the pattern and the four metrics replaced,
      a metric the summary leaves undefined stored as NaN. */
  function Scored(row: CategoryRow, includeRegex: string, s: Summary): (r: CategoryRow)
    ensures r.id == row.id && r.code == row.code && r.excludeRegex == row.excludeRegex && r.frequency == row.frequency
    ensures r.regex == Some(includeRegex)
    ensures r.precision.Some? && (r.precision.value.NaN? <==> s.precision.None?)
    ensures r.recall.Some? && (r.recall.value.NaN? <==> s.recall.None?)
    ensures r.f1score.Some? && (r.f1score.value.NaN? <==> s.f1score.None?)
    ensures r.accuracy.Some? && (r.accuracy.value.NaN? <==> s.accuracy.None?)
    ensures s.precision.Some? ==> r.precision == Some(Finite(s.precision.value))
    ensures s.recall.Some? ==> r.recall == Some(Finite(s.recall.value))
    ensures s.f1score.Some? ==> r.f1score == Some(Finite(s.f1score.value))
    ensures s.accuracy.Some? ==> r.accuracy == Some(Finite(s.accuracy.value))
  {
    row.(regex := Some(includeRegex),
         precision := Some(ToFloat(s.precision)),
         recall := Some(ToFloat(s.recall)),
         f1score := Some(ToFloat(s.f1score)),
         accuracy := Some(ToFloat(s.accuracy)))
  }

  /** A row that was not assigned to when `.loc` created the metric columns: pandas fills
      its new cells with NaN. */
  function WithNaNMetrics(row: CategoryRow): CategoryRow
  {
    row.(precision := Some(NaN), recall := Some(NaN), f1score := Some(NaN), accuracy := Some(NaN))
  }

  /** The five `categories_used.loc[id, column] = ...` assignments: every row with index
      label `id` is scored. When the table has no metric columns yet, the assignments
      create them and every other row gets NaN in them; otherwise the other rows keep
      what they hold. */
  function SetWhereId(rows: seq<CategoryRow>, hasMetrics: bool, id: string, includeRegex: string, s: Summary)
    : (r: seq<CategoryRow>)
    ensures |r| == |rows|
    ensures forall j :: 0 <= j < |rows| ==>
              r[j].id == rows[j].id && r[j].code == rows[j].code &&
              r[j].excludeRegex == rows[j].excludeRegex && r[j].frequency == rows[j].frequency
    ensures forall j :: 0 <= j < |rows| && rows[j].id == id ==> r[j] == Scored(rows[j], includeRegex, s)
    ensures forall j :: 0 <= j < |rows| && rows[j].id != id ==> r[j].regex == rows[j].regex
    ensures hasMetrics ==> forall j :: 0 <= j < |rows| && rows[j].id != id ==> r[j] == rows[j]
    ensures !hasMetrics ==> forall j :: 0 <= j < |rows| ==> !Unscored(r[j])
  {
    seq(|rows|, j requires 0 <= j < |rows| =>
      if rows[j].id == id then Scored(rows[j], includeRegex, s)
      else if hasMetrics then rows[j]
      else WithNaNMetrics(rows[j]))
  }

  /** The evaluation behind the page, given (includeRegex, excludeRegex, code): the result frame
      of the patterns against the records, or the message of the pattern error it raised. */
  type Evaluator = (string, string, string) -> Result<seq<ResultRow>, string>

  /** The category `code` is in the table and its evaluation raised no pattern error. */
  predicate Commits(rows: seq<CategoryRow>, code: string, includeRegex: string, excludeRegex: string, evaluate: Evaluator)
  {
    var found := IndexOfCode(rows, code);
    found.Some? && evaluate(includeRegex, excludeRegex, rows[found.value].code).Ok?
  }

  /** The table after the page has evaluated `includeRegex`/`excludeRegex` for the category
      `code`: unchanged when the code is unknown or a pattern is invalid, otherwise the
      category's row scored. `hasMetrics` says whether the metric columns exist yet. */
  function CommitRows(rows: seq<CategoryRow>, hasMetrics: bool, code: string, includeRegex: string, excludeRegex: string,
                      evaluate: Evaluator)
    : (r: seq<CategoryRow>)
    ensures |r| == |rows|
    ensures !Commits(rows, code, includeRegex, excludeRegex, evaluate) ==> r == rows
    ensures forall j :: 0 <= j < |rows| ==>
              r[j].id == rows[j].id && r[j].code == rows[j].code &&
              r[j].excludeRegex == rows[j].excludeRegex && r[j].frequency == rows[j].frequency
  {
    match IndexOfCode(rows, code)
    case None => rows
    case Some(i) =>
      match evaluate(includeRegex, excludeRegex, rows[i].code)
      case Err(_) => rows
      case Ok(result) => SetWhereId(rows, hasMetrics, rows[i].id, includeRegex, Summarize(result))
  }

  /** With distinct index labels a successful commit changes the category's row only in
      the pattern and the four metrics, and every other row at most by the NaN cells of
      newly created metric columns; a failed one changes nothing. */
  lemma CommitTouchesOnlyItsRow(rows: seq<CategoryRow>, hasMetrics: bool, code: string, includeRegex: string,
                                excludeRegex: string, evaluate: Evaluator)
    requires DistinctIds(rows)
    ensures var r := CommitRows(rows, hasMetrics, code, includeRegex, excludeRegex, evaluate);
      match IndexOfCode(rows, code)
      case None => r == rows
      case Some(i) =>
        match evaluate(includeRegex, excludeRegex, code)
        case Err(_) => r == rows
        case Ok(result) =>
          && r[i] == Scored(rows[i], includeRegex, Summarize(result))
          && forall j :: 0 <= j < |rows| && j != i ==>
               r[j] == if hasMetrics then rows[j] else WithNaNMetrics(rows[j])
  {
    match IndexOfCode(rows, code)
    case None =>
    case Some(i) =>
      match evaluate(includeRegex, excludeRegex, code)
      case Err(_) =>
      case Ok(result) =>
        var r := CommitRows(rows, hasMetrics, code, includeRegex, excludeRegex, evaluate);
        forall j | 0 <= j < |rows| && j != i
          ensures r[j] == if hasMetrics then rows[j] else WithNaNMetrics(rows[j])
        {
          if j < i {
            assert rows[j].id != rows[i].id;
          } else {
            assert rows[i].id != rows[j].id;
          }
        }
  }

  /** Rows that agree on their codes agree on where a code is found. */
  lemma {:induction false} IndexOfCodeByCodes(a: seq<CategoryRow>, b: seq<CategoryRow>, code: string)
    requires |a| == |b| && forall j :: 0 <= j < |a| ==> a[j].code == b[j].code
    ensures IndexOfCode(a, code) == IndexOfCode(b, code)
  {
    if a != [] {
      IndexOfCodeByCodes(a[1..], b[1..], code);
    }
  }

  /** Committing the same pattern pair for the same category twice leaves the table as
      committing it once (the first success has created the metric columns). */
  lemma CommitIdempotent(rows: seq<CategoryRow>, hasMetrics: bool, code: string, includeRegex: string,
                         excludeRegex: string, evaluate: Evaluator)
    ensures var once := CommitRows(rows, hasMetrics, code, includeRegex, excludeRegex, evaluate);
      var created := hasMetrics || Commits(rows, code, includeRegex, excludeRegex, evaluate);
      CommitRows(once, created, code, includeRegex, excludeRegex, evaluate) == once
  {
    var once := CommitRows(rows, hasMetrics, code, includeRegex, excludeRegex, evaluate);
    IndexOfCodeByCodes(rows, once, code);
    match IndexOfCode(rows, code)
    case None =>
    case Some(i) =>
      match evaluate(includeRegex, excludeRegex, rows[i].code)
      case Err(_) =>
      case Ok(result) =>
        var twice := CommitRows(once, true, code, includeRegex, excludeRegex, evaluate);
        assert once[i].id == rows[i].id && once[i].code == rows[i].code;
        assert twice == SetWhereId(once, true, rows[i].id, includeRegex, Summarize(result));
        forall j | 0 <= j < |rows|
          ensures twice[j] == once[j]
        {
        }
  }

  /** What the page returns after an evaluation request. */
  datatype CommitOutcome =
    | UnknownCategory             // the placeholders for a code not in the table
    | PatternError(message: string)
    | Evaluated(summary: Summary)

  /** One call of `save_regex_to_airtable`, whose effect on the tag store is not modelled. */
  datatype StoreWrite = StoreWrite(id: string, includeRegex: string, excludeRegex: string)

  /** The shared category table (`get_icnptso_used()`), with a log of the saves made
      after each successful commit. */
  class CategoryTable {
    var rows: seq<CategoryRow>
    /** Whether the table has an "Exclude regular expression" column. */
    var hasExcludeColumn: bool
    /** Whether the table has the precision, recall, f1score and accuracy columns; the
        first successful commit creates them. */
    var hasMetricColumns: bool
    /** The calls of `save_regex_to_airtable`, oldest first. */
    var storeWrites: seq<StoreWrite>
    /** The tables passed to `save_icnptso_used`, oldest first. */
    var snapshots: seq<seq<CategoryRow>>

    /** Index labels are distinct, and a column the table lacks has no cell in any row. */
    ghost predicate Valid()
      reads this
    {
      && DistinctIds(rows)
      && (!hasExcludeColumn ==> forall j :: 0 <= j < |rows| ==> rows[j].excludeRegex.None?)
      && (!hasMetricColumns ==> forall j :: 0 <= j < |rows| ==> Unscored(rows[j]))
    }

    constructor (rows: seq<CategoryRow>, hasExcludeColumn: bool, hasMetricColumns: bool)
      requires DistinctIds(rows)
      requires !hasExcludeColumn ==> forall j :: 0 <= j < |rows| ==> rows[j].excludeRegex.None?
      requires !hasMetricColumns ==> forall j :: 0 <= j < |rows| ==> Unscored(rows[j])
      ensures Valid()
      ensures this.rows == rows && this.hasExcludeColumn == hasExcludeColumn
      ensures this.hasMetricColumns == hasMetricColumns
      ensures storeWrites == [] && snapshots == []
    {
      this.rows := rows;
      this.hasExcludeColumn := hasExcludeColumn;
      this.hasMetricColumns := hasMetricColumns;
      storeWrites := [];
      snapshots := [];
    }

    /** `category_regex_setup`: the default pattern and an empty exclusion for an unknown
        category; otherwise the stored patterns, each replaced by its fallback when null
        or empty. The include pattern shown is never empty. */
    method CategoryRegexSetup(pathname: string) returns (includeRegex: string, excludeRegex: string)
      ensures IndexOfCode(rows, Slug(pathname)).None? ==> includeRegex == DefaultRegex && excludeRegex == ""
      ensures IndexOfCode(rows, Slug(pathname)).Some? ==>
                var row := rows[IndexOfCode(rows, Slug(pathname)).value];
                && includeRegex == OrDefault(row.regex, DefaultRegex)
                && excludeRegex == (if hasExcludeColumn then OrDefault(row.excludeRegex, "") else "")
      ensures includeRegex != ""
    {
      var shown: seq<Option<string>> := [Some(DefaultRegex), Some("")];
      var found := IndexOfCode(rows, Slug(pathname));
      if found.None? {
        return shown[0].value, shown[1].value;
      }
      var row := rows[found.value];
      shown := shown[0 := row.regex];
      if hasExcludeColumn {
        shown := shown[1 := row.excludeRegex];
      }
      if shown[0].None? || shown[0].value == "" {
        shown := shown[0 := Some(DefaultRegex)];
      }
      if shown[1].None? || shown[1].value == "" {
        shown := shown[1 := Some("")];
      }
      includeRegex, excludeRegex := shown[0].value, shown[1].value;
    }

    /** The lookup/evaluate/commit part of `tag_regex_page`. */
    method Commit(pathname: string, includeRegex: string, excludeRegex: string, evaluate: Evaluator)
      returns (outcome: CommitOutcome)
      requires Valid()
      modifies this
      ensures Valid()
      ensures hasExcludeColumn == old(hasExcludeColumn)
      ensures rows == CommitRows(old(rows), old(hasMetricColumns), Slug(pathname), includeRegex, excludeRegex, evaluate)
      ensures hasMetricColumns == (old(hasMetricColumns) || Commits(old(rows), Slug(pathname), includeRegex, excludeRegex, evaluate))
      ensures IndexOfCode(old(rows), Slug(pathname)).None? ==> outcome == UnknownCategory && unchanged(this)
      ensures IndexOfCode(old(rows), Slug(pathname)).Some? ==>
                var i := IndexOfCode(old(rows), Slug(pathname)).value;
                match evaluate(includeRegex, excludeRegex, old(rows)[i].code)
                case Err(message) => outcome == PatternError(message) && unchanged(this)
                case Ok(result) =>
                  && outcome == Evaluated(Summarize(result))
                  && storeWrites == old(storeWrites) + [StoreWrite(old(rows)[i].id, includeRegex, excludeRegex)]
                  && snapshots == old(snapshots) + [rows]
    {
      var code := Slug(pathname);
      var found := IndexOfCode(rows, code);
      if found.None? {
        return UnknownCategory;
      }
      var category := rows[found.value];
      var evaluated := evaluate(includeRegex, excludeRegex, category.code);
      if evaluated.Err? {
        return PatternError(evaluated.error);
      }
      var summary := GetResultSummary(evaluated.value);
      rows := SetWhereId(rows, hasMetricColumns, category.id, includeRegex, summary);
      hasMetricColumns := true;
      storeWrites := storeWrites + [StoreWrite(category.id, includeRegex, excludeRegex)];
      snapshots := snapshots + [rows];
      outcome := Evaluated(summary);
    }
  }

  /** `str.replace("-", " ")`. */
  function Spaced(s: string): (r: string)
    ensures |r| == |s|
  {
    seq(|s|, i requires 0 <= i < |s| => if s[i] == '-' then ' ' else s[i])
  }

  /** The words after the count in a result type's header: the type's name with spaces
      for hyphens, plural unless the count is exactly 1. */
  function HeaderNoun(t: ResultType, count: nat): (h: string)
    ensures |h| == |t.Name()| + (if count != 1 then 1 else 0)
    ensures h[..|t.Name()|] == Spaced(t.Name())
    ensures h[|h| - 1] == 's' <==> count != 1
  {
    var noun := Spaced(t.Name());
    assert noun[|noun| - 1] == 'e';
    noun + (if count != 1 then "s" else "")
  }

  /** The positions, from `from` on, of the rows whose result type is `t`: each such
      position exactly once, in increasing order. */
  function TypeIndices(result: seq<ResultRow>, t: ResultType, from: nat): (idx: seq<nat>)
    requires from <= |result|
    ensures forall k :: 0 <= k < |idx| ==> from <= idx[k] < |result| && result[idx[k]].result == Some(t)
    ensures forall k, l :: 0 <= k < l < |idx| ==> idx[k] < idx[l]
    ensures forall i :: from <= i < |result| && result[i].result == Some(t) ==> i in idx
    decreases |result| - from
  {
    if from == |result| then []
    else (if result[from].result == Some(t) then [from] else []) + TypeIndices(result, t, from + 1)
  }

  /** The records at the given positions, in the given order. */
  function Pick(records: seq<Record>, idx: seq<nat>): (s: seq<Record>)
    requires forall k :: 0 <= k < |idx| ==> idx[k] < |records|
    ensures |s| == |idx| && forall k :: 0 <= k < |idx| ==> s[k] == records[idx[k]]
  {
    seq(|idx|, k requires 0 <= k < |idx| => records[idx[k]])
  }

  /** The records whose result type is `t`, in record order (`df.loc[result == t]`). */
  function RecordsOfType(records: seq<Record>, result: seq<ResultRow>, t: ResultType): (s: seq<Record>)
    requires |records| == |result|
    ensures |s| == CountResult(result, t)
  {
    if records == [] then []
    else (if result[0].result == Some(t) then [records[0]] else []) + RecordsOfType(records[1..], result[1..], t)
  }

  /** `df.loc[result == t]` holds exactly the records whose result type is `t`, each
      once and in record order. */
  lemma {:induction false} RecordsOfTypeSelects(records: seq<Record>, result: seq<ResultRow>, t: ResultType, from: nat)
    requires |records| == |result| && from <= |result|
    ensures RecordsOfType(records[from..], result[from..], t) == Pick(records, TypeIndices(result, t, from))
    decreases |result| - from
  {
    if from < |result| {
      RecordsOfTypeSelects(records, result, t, from + 1);
      var rest := TypeIndices(result, t, from + 1);
      var head: seq<nat> := if result[from].result == Some(t) then [from] else [];
      assert records[from..][1..] == records[from + 1..];
      assert result[from..][1..] == result[from + 1..];
      assert RecordsOfType(records[from..], result[from..], t)
          == (if result[from].result == Some(t) then [records[from]] else []) + Pick(records, rest);
      assert TypeIndices(result, t, from) == head + rest;
      assert Pick(records, head) == (if result[from].result == Some(t) then [records[from]] else []);
      PickAppend(records, head, rest);
    }
  }

  lemma PickAppend(records: seq<Record>, a: seq<nat>, b: seq<nat>)
    requires forall k :: 0 <= k < |a| ==> a[k] < |records|
    requires forall k :: 0 <= k < |b| ==> b[k] < |records|
    ensures Pick(records, a + b) == Pick(records, a) + Pick(records, b)
  {
  }

  /** The sample list of one result type (`.head(10)`): the first ten such records, or
      all of them when there are fewer. */
  function SampleRecords(records: seq<Record>, result: seq<ResultRow>, t: ResultType): (s: seq<Record>)
    requires |records| == |result|
    ensures |s| == if CountResult(result, t) < 10 then CountResult(result, t) else 10
    ensures s == RecordsOfType(records, result, t)[..|s|]
  {
    var all := RecordsOfType(records, result, t);
    if |all| <= 10 then all else all[..10]
  }
}
