/** Model of the all-categories page, tagger/page_icnptso_all.py: which rows of the
    category table are shown, in which order, how each statistic cell is drawn, and
    the counts under the table. */
module TableView {
  import opened Wrappers
  import opened Regex
  import opened Ordering
  import opened Utils
  import opened Categories

  /** Boolean indexing `df[mask]`: the rows that satisfy `p`, in their order. */
  function Where<T(==,!new)>(s: seq<T>, p: T -> bool): (r: seq<T>)
    ensures |r| <= |s|
    ensures forall i :: 0 <= i < |r| ==> p(r[i])
    ensures forall x :: multiset(r)[x] == if p(x) then multiset(s)[x] else 0
  {
    if s == [] then []
    else
      assert s == [s[0]] + s[1..];
      (if p(s[0]) then [s[0]] else []) + Where(s[1..], p)
  }

  /** Splitting rows by a condition and by its negation shares them out exactly. */
  lemma {:induction false} WhereSplits<T(!new)>(s: seq<T>, p: T -> bool, q: T -> bool)
    requires forall x :: q(x) == !p(x)
    ensures |Where(s, p)| + |Where(s, q)| == |s|
  {
    if s != [] {
      WhereSplits(s[1..], p, q);
    }
  }

  /** `Regular expression` is not null (an empty string is not null). */
  predicate HasRegex(row: CategoryRow)
  {
    row.regex.Some?
  }

  predicate LacksRegex(row: CategoryRow)
  {
    row.regex.None?
  }

  /** Whether the "show rows" choice lets a row through: "with" keeps rows that have a
      pattern, "without" rows that have none, any other value keeps every row. */
  predicate ShowPasses(mode: string, row: CategoryRow)
  {
    if mode == "with" then HasRegex(row)
    else if mode == "without" then LacksRegex(row)
    else true
  }

  /** The rows kept by the "show rows" choice. */
  function ShowRows(rows: seq<CategoryRow>, mode: string): (r: seq<CategoryRow>)
    ensures |r| <= |rows|
    ensures forall x :: multiset(r)[x] == if ShowPasses(mode, x) then multiset(rows)[x] else 0
  {
    if mode == "with" then Where(rows, HasRegex)
    else if mode == "without" then Where(rows, LacksRegex)
    else rows
  }

  /** Every row is shown by exactly one of "with" and "without". */
  lemma WithWithoutPartition(rows: seq<CategoryRow>)
    ensures multiset(ShowRows(rows, "with")) + multiset(ShowRows(rows, "without")) == multiset(rows)
    ensures |ShowRows(rows, "with")| + |ShowRows(rows, "without")| == |rows|
  {
    var w, wo := ShowRows(rows, "with"), ShowRows(rows, "without");
    forall x
      ensures (multiset(w) + multiset(wo))[x] == multiset(rows)[x]
    {
      assert ShowPasses("with", x) != ShowPasses("without", x);
    }
    assert multiset(w) + multiset(wo) == multiset(rows);
    WhereSplits(rows, HasRegex, LacksRegex);
  }

  /** The code filter `Code.str.contains(filter, case=False)` as a row condition. */
  function CodeMatches(engine: Engine, filter: string): CategoryRow -> bool
  {
    (row: CategoryRow) => engine.searchIgnoringCase(filter, row.code)
  }

  /** The columns the table can be ordered by. */
  datatype Column = ByFrequency | ByF1Score | ByPrecision | ByRecall | ByCode

  /** The "order by" choice: one of the four statistic columns, and Code for any other value. */
  function OrderColumn(orderBy: string): (c: Column)
    ensures c == ByFrequency <==> orderBy == "frequency"
    ensures c == ByF1Score <==> orderBy == "f1score"
    ensures c == ByPrecision <==> orderBy == "precision"
    ensures c == ByRecall <==> orderBy == "recall"
    ensures c == ByCode <==> orderBy !in ["frequency", "f1score", "precision", "recall"]
  {
    if orderBy == "frequency" then ByFrequency
    else if orderBy == "f1score" then ByF1Score
    else if orderBy == "precision" then ByPrecision
    else if orderBy == "recall" then ByRecall
    else ByCode
  }

  /** A statistic cell as a sort key: NaN and an absent value are missing. */
  function MetricKey(m: Option<Float>): (k: Key)
    ensures k.Missing? <==> !(m.Some? && m.value.Finite?)
  {
    if m.Some? && m.value.Finite? then Num(m.value.value) else Missing
  }

  /** The value of column `c` in `row`. */
  function SortKey(c: Column, row: CategoryRow): (k: Key)
    ensures c == ByCode ==> k == Text(row.code)
    ensures c == ByFrequency ==> (k.Missing? <==> row.frequency.None?)
    ensures c != ByCode ==> !k.Text?
  {
    match c
    case ByFrequency => if row.frequency.Some? then Num(row.frequency.value as real) else Missing
    case ByF1Score => MetricKey(row.f1score)
    case ByPrecision => MetricKey(row.precision)
    case ByRecall => MetricKey(row.recall)
    case ByCode => Text(row.code)
  }

  function KeyOf(c: Column): CategoryRow -> Key
  {
    (row: CategoryRow) => SortKey(c, row)
  }

  /** Whether a row of the table is on the page: it passes the "show rows" choice and,
      when a filter is typed, its code matches the filter. */
  predicate Kept(engine: Engine, filter: string, mode: string, row: CategoryRow)
  {
    ShowPasses(mode, row) && (filter == "" || engine.searchIgnoringCase(filter, row.code))
  }

  /** The statistic columns that exist only once a commit has created them. */
  predicate IsMetric(c: Column)
  {
    c.ByF1Score? || c.ByPrecision? || c.ByRecall?
  }

  /** The rows `filter_icnptso_main_page` draws, in order. None when the typed filter is
      not a valid pattern, or when the table is ordered by a metric column it does not
      have yet (pandas raises and the callback fails). */
  function View(engine: Engine, rows: seq<CategoryRow>, hasMetrics: bool, filter: string, mode: string,
                orderBy: string, direction: string)
    : (v: Option<seq<CategoryRow>>)
    ensures v.None? <==> (filter != "" && !engine.compiles(filter)) || (!hasMetrics && IsMetric(OrderColumn(orderBy)))
    ensures v.Some? ==> SortedBy(v.value, KeyOf(OrderColumn(orderBy)), direction == "ascending")
    ensures v.Some? ==> forall x :: multiset(v.value)[x] == if Kept(engine, filter, mode, x) then multiset(rows)[x] else 0
    ensures v.Some? ==> |v.value| <= |rows|
  {
    var shown := ShowRows(rows, mode);
    if filter != "" && !engine.compiles(filter) then None
    else
      var filtered := if filter == "" then shown else Where(shown, CodeMatches(engine, filter));
      var column := OrderColumn(orderBy);
      if !hasMetrics && IsMetric(column) then None
      else Some(SortBy(filtered, KeyOf(column), direction == "ascending"))
  }

  /** The counts under the table. */
  datatype Stats = Stats(shown: nat, total: nat, have: nat, need: nat)

  function CategoryStats(rows: seq<CategoryRow>, view: seq<CategoryRow>): (s: Stats)
    ensures s.shown == |view| && s.total == |rows|
    ensures s.have == |ShowRows(rows, "with")| && s.need == |ShowRows(rows, "without")|
  {
    Stats(|view|, |rows|, |Where(rows, HasRegex)|, |Where(rows, LacksRegex)|)
  }

  /** Every category either has a pattern or needs one, and the page never claims to
      show more categories than there are. */
  lemma StatsConsistent(engine: Engine, rows: seq<CategoryRow>, hasMetrics: bool, filter: string, mode: string,
                        orderBy: string, direction: string)
    requires View(engine, rows, hasMetrics, filter, mode, orderBy, direction).Some?
    ensures var s := CategoryStats(rows, View(engine, rows, hasMetrics, filter, mode, orderBy, direction).value);
      s.have + s.need == s.total && s.shown <= s.total
  {
    WithWithoutPartition(rows);
  }

  /** A statistic cell: a dash, or a percentage in a colour class. */
  datatype Cell = Dash | Percent(value: Float, colour: Colour)

  /** `stat_cell` as written: a dash only when the value is not a float. A NaN is a float,
      so it is drawn as a percentage. */
  function StatCellAsWritten(m: Option<Float>): (c: Cell)
    ensures c.Dash? <==> m.None?
    ensures c.Percent? ==> c.colour == StatColour(c.value)
  {
    if m.None? then Dash else Percent(m.value, StatColour(m.value))
  }

  /** A category that has not been evaluated holds NaN once another category has been
      scored, and `stat_cell` then draws "nan%" in red instead of a dash. */
  lemma StatCellAsWrittenDrawsNaN()
    ensures StatCellAsWritten(Some(NaN)) == Percent(NaN, Red)
  {
  }

  /** `stat_cell` as intended: a dash for anything but a number, so NaN is a dash too. */
  function StatCell(m: Option<Float>): (c: Cell)
    ensures c.Dash? <==> !(m.Some? && m.value.Finite?)
    ensures c.Percent? ==> c.value == m.value && c.value.Finite? && c.colour == StatColour(c.value)
  {
    if m.Some? && m.value.Finite? then Percent(m.value, StatColour(m.value)) else Dash
  }

  /** The corrected cell differs from the written one only on NaN. */
  lemma StatCellCorrectsOnlyNaN(m: Option<Float>)
    ensures StatCell(m) != StatCellAsWritten(m) <==> m == Some(NaN)
  {
  }

  /** One drawn row of the table. The category's display name is not part of this model. */
  datatype TableLine = TableLine(
    code: string,
    regex: Option<string>,
    excludeRegex: Option<string>,
    f1score: Cell,
    precision: Cell,
    recall: Cell,
    frequency: Option<nat>)

  /** A table row as drawn: the link target's code, the pattern, the exclusion pattern
      when it is not null, the three statistic cells by `stat_cell` as written, and the
      frequency. */
  function DrawRow(row: CategoryRow): (line: TableLine)
    ensures line.code == row.code && line.regex == row.regex && line.frequency == row.frequency
    ensures line.excludeRegex == row.excludeRegex
    ensures line.f1score.Dash? <==> row.f1score.None?
    ensures line.precision.Dash? <==> row.precision.None?
    ensures line.recall.Dash? <==> row.recall.None?
    ensures line.f1score.Percent? ==> line.f1score.value == row.f1score.value
    ensures line.precision.Percent? ==> line.precision.value == row.precision.value
    ensures line.recall.Percent? ==> line.recall.value == row.recall.value
  {
    TableLine(row.code, row.regex, row.excludeRegex,
              StatCellAsWritten(row.f1score), StatCellAsWritten(row.precision), StatCellAsWritten(row.recall),
              row.frequency)
  }

  /** A table row as intended: a dash exactly for the statistics that are not numbers,
      which are the ones the ordering puts last. */
  function DrawRowIntended(row: CategoryRow): (line: TableLine)
    ensures line.code == row.code && line.regex == row.regex && line.frequency == row.frequency
    ensures line.excludeRegex == row.excludeRegex
    ensures line.f1score.Dash? <==> SortKey(ByF1Score, row).Missing?
    ensures line.precision.Dash? <==> SortKey(ByPrecision, row).Missing?
    ensures line.recall.Dash? <==> SortKey(ByRecall, row).Missing?
  {
    TableLine(row.code, row.regex, row.excludeRegex,
              StatCell(row.f1score), StatCell(row.precision), StatCell(row.recall), row.frequency)
  }

  /** The drawn and the intended row differ exactly when a shown statistic is NaN. */
  lemma DrawRowDiffersOnlyOnNaN(row: CategoryRow)
    ensures DrawRow(row) != DrawRowIntended(row) <==>
              row.f1score == Some(NaN) || row.precision == Some(NaN) || row.recall == Some(NaN)
  {
    StatCellCorrectsOnlyNaN(row.f1score);
    StatCellCorrectsOnlyNaN(row.precision);
    StatCellCorrectsOnlyNaN(row.recall);
  }

  /** The first successful commit creates the metric columns, so every other category
      then holds NaN, which the page draws as a red "nan%" where a dash is intended. */
  lemma FirstCommitDrawsNaN(rows: seq<CategoryRow>, code: string, includeRegex: string, excludeRegex: string,
                            evaluate: Evaluator, j: nat)
    requires DistinctIds(rows)
    requires Commits(rows, code, includeRegex, excludeRegex, evaluate)
    requires j < |rows| && rows[j].code != code
    ensures var other := CommitRows(rows, false, code, includeRegex, excludeRegex, evaluate)[j];
      && other.f1score == Some(NaN)
      && DrawRow(other).f1score == Percent(NaN, Red)
      && DrawRowIntended(other).f1score == Dash
  {
    CommitTouchesOnlyItsRow(rows, false, code, includeRegex, excludeRegex, evaluate);
  }

  /** The drawn table: one line per shown row, in the shown order. */
  function DrawTable(view: seq<CategoryRow>): (lines: seq<TableLine>)
    ensures |lines| == |view|
    ensures forall i :: 0 <= i < |view| ==> lines[i] == DrawRow(view[i])
  {
    seq(|view|, i requires 0 <= i < |view| => DrawRow(view[i]))
  }
}
