/** Model of tagger/data.py: the searchable text of each record, the tag frequency
    table, the join of fetched labels with those frequencies, the confusion partition of
    a pattern against the manual tags, and its summary metrics. */
module Data {
  import opened Wrappers
  import opened Regex
  import opened Ordering

  /** One manually tagged record of the completed-records table. A `None` field is a
      null cell; `tags` is the record's tag list. */
  datatype Record = Record(name: string, activities: Option<string>, objects: Option<string>, tags: Option<seq<string>>)

  // ---------------------------------------------------------------------------
  // The corpus

  /** One record's searchable text: the name, one space, then the activities, or the
      objects where the activities cell is null (`fillna`). When both are null the join
      meets a NaN and raises; that is `None` here. */
  function CorpusText(r: Record): (t: Option<string>)
    ensures t.Some? <==> r.activities.Some? || r.objects.Some?
    ensures t.Some? ==> |r.name| < |t.value| && t.value[..|r.name|] == r.name && t.value[|r.name|] == ' '
    ensures t.Some? && r.activities.Some? ==> t.value[|r.name| + 1..] == r.activities.value
    ensures t.Some? && r.activities.None? ==> t.value[|r.name| + 1..] == r.objects.value
  {
    match r.activities
    case Some(a) => Some(r.name + " " + a)
    case None =>
      match r.objects
      case Some(o) => Some(r.name + " " + o)
      case None => None
  }

  /** The `corpus` series: one text per record, in record order; building it fails as a
      whole when one record has no text. */
  function Corpus(records: seq<Record>): (c: Option<seq<string>>)
    ensures c.Some? <==> forall i :: 0 <= i < |records| ==> CorpusText(records[i]).Some?
    ensures c.Some? ==> |c.value| == |records|
    ensures c.Some? ==> forall i :: 0 <= i < |records| ==> CorpusText(records[i]) == Some(c.value[i])
  {
    if records == [] then Some([])
    else
      match (CorpusText(records[0]), Corpus(records[1..]))
      case (Some(t), Some(rest)) =>
        assert forall i :: 0 < i < |records| ==> records[i] == records[1..][i - 1];
        Some([t] + rest)
      case (None, _) => None
      case (_, None) =>
        var k :| 0 <= k < |records[1..]| && CorpusText(records[1..][k]).None?;
        assert CorpusText(records[k + 1]).None?;
        None
  }

  // ---------------------------------------------------------------------------
  // Tag frequencies

  /** A record's tag list; a null cell has no entries. */
  function TagList(r: Record): seq<string>
  {
    if r.tags.Some? then r.tags.value else []
  }

  /** Every tag entry of every record: the unstacked Tags column with its nulls dropped.
      (pandas lists them position by position; the order does not affect any count.) */
  function Occurrences(records: seq<Record>): seq<string>
  {
    if records == [] then [] else TagList(records[0]) + Occurrences(records[1..])
  }

  /** A tag with the number of entries carrying it. */
  datatype TagCount = TagCount(tag: string, frequency: nat)

  /** `xs` without any entry equal to `x`. */
  function RemoveAll(xs: seq<string>, x: string): (r: seq<string>)
    ensures multiset(r) == multiset(xs)[x := 0]
    ensures |r| + multiset(xs)[x] == |xs|
  {
    if xs == [] then []
    else
      assert xs == [xs[0]] + xs[1..];
      (if xs[0] == x then [] else [xs[0]]) + RemoveAll(xs[1..], x)
  }

  /** `value_counts` before ordering: each distinct entry once, with how often it occurs. */
  function ValueCounts(xs: seq<string>): (vc: seq<TagCount>)
    ensures forall i :: 0 <= i < |vc| ==> vc[i].frequency == multiset(xs)[vc[i].tag] >= 1
    ensures forall i, j :: 0 <= i < j < |vc| ==> vc[i].tag != vc[j].tag
    ensures forall t :: t in xs ==> exists i :: 0 <= i < |vc| && vc[i].tag == t
    decreases |xs|
  {
    if xs == [] then []
    else
      var tail := ValueCounts(RemoveAll(xs, xs[0]));
      CountsCons(xs, tail);
      [TagCount(xs[0], multiset(xs)[xs[0]])] + tail
  }

  /** Counting the first entry, then the value counts of the rest with it removed, counts
      every entry once. */
  lemma CountsCons(xs: seq<string>, tail: seq<TagCount>)
    requires xs != []
    requires forall i :: 0 <= i < |tail| ==> tail[i].frequency == multiset(RemoveAll(xs, xs[0]))[tail[i].tag] >= 1
    requires forall i, j :: 0 <= i < j < |tail| ==> tail[i].tag != tail[j].tag
    requires forall t :: t in RemoveAll(xs, xs[0]) ==> exists i :: 0 <= i < |tail| && tail[i].tag == t
    ensures var vc := [TagCount(xs[0], multiset(xs)[xs[0]])] + tail;
      && (forall i :: 0 <= i < |vc| ==> vc[i].frequency == multiset(xs)[vc[i].tag] >= 1)
      && (forall i, j :: 0 <= i < j < |vc| ==> vc[i].tag != vc[j].tag)
      && (forall t :: t in xs ==> exists i :: 0 <= i < |vc| && vc[i].tag == t)
  {
    var rest := RemoveAll(xs, xs[0]);
    var vc := [TagCount(xs[0], multiset(xs)[xs[0]])] + tail;
    assert multiset(rest)[xs[0]] == 0;
    forall i | 0 <= i < |vc|
      ensures vc[i].frequency == multiset(xs)[vc[i].tag] >= 1
    {
      if i > 0 {
        assert vc[i] == tail[i - 1];
        assert vc[i].tag != xs[0];
      }
    }
    forall i, j | 0 <= i < j < |vc|
      ensures vc[i].tag != vc[j].tag
    {
      if i == 0 {
        assert vc[j] == tail[j - 1];
      } else {
        assert vc[i] == tail[i - 1] && vc[j] == tail[j - 1];
      }
    }
    forall t | t in xs
      ensures exists i :: 0 <= i < |vc| && vc[i].tag == t
    {
      if t != xs[0] {
        assert t in multiset(xs);
        assert t in multiset(rest);
        assert t in rest;
        var k :| 0 <= k < |tail| && tail[k].tag == t;
        assert vc[k + 1].tag == t;
      } else {
        assert vc[0].tag == t;
      }
    }
  }

  /** The sum of the frequencies of a table. */
  function TotalFrequency(vc: seq<TagCount>): nat
  {
    if vc == [] then 0 else vc[0].frequency + TotalFrequency(vc[1..])
  }

  /** The frequencies of the value counts add up to the number of entries. */
  lemma {:induction false} ValueCountsTotal(xs: seq<string>)
    ensures TotalFrequency(ValueCounts(xs)) == |xs|
    decreases |xs|
  {
    if xs != [] {
      var rest := RemoveAll(xs, xs[0]);
      ValueCountsTotal(rest);
      var vc := ValueCounts(xs);
      assert vc[1..] == ValueCounts(rest);
    }
  }

  lemma {:induction false} TotalFrequencyAppend(a: seq<TagCount>, b: seq<TagCount>)
    ensures TotalFrequency(a + b) == TotalFrequency(a) + TotalFrequency(b)
  {
    if a == [] {
      assert a + b == b;
    } else {
      TotalFrequencyAppend(a[1..], b);
      assert (a + b)[1..] == a[1..] + b;
    }
  }

  /** Taking one row out of a table takes its frequency out of the total. */
  lemma TotalFrequencyRemove(b: seq<TagCount>, k: nat)
    requires k < |b|
    ensures TotalFrequency(b) == b[k].frequency + TotalFrequency(b[..k] + b[k + 1..])
  {
    assert b == b[..k] + ([b[k]] + b[k + 1..]);
    TotalFrequencyAppend(b[..k], [b[k]] + b[k + 1..]);
    TotalFrequencyAppend([b[k]], b[k + 1..]);
    TotalFrequencyAppend(b[..k], b[k + 1..]);
  }

  /** Reordering a table does not change its total. */
  lemma {:induction false} TotalFrequencyPermutation(a: seq<TagCount>, b: seq<TagCount>)
    requires multiset(a) == multiset(b)
    ensures TotalFrequency(a) == TotalFrequency(b)
    decreases |a|
  {
    if a != [] {
      assert a[0] in multiset(b);
      var k :| 0 <= k < |b| && b[k] == a[0];
      var b' := b[..k] + b[k + 1..];
      assert multiset(a[1..]) == multiset(b') by {
        assert a == [a[0]] + a[1..];
        assert multiset(a) == multiset{a[0]} + multiset(a[1..]);
        assert b == b[..k] + [b[k]] + b[k + 1..];
        assert multiset(b) == multiset(b[..k]) + multiset{b[k]} + multiset(b[k + 1..]);
        assert multiset(b') == multiset(b[..k]) + multiset(b[k + 1..]);
        forall x ensures multiset(a[1..])[x] == multiset(b')[x] {
          assert multiset(a)[x] == multiset(b)[x];
        }
      }
      TotalFrequencyPermutation(a[1..], b');
      TotalFrequencyRemove(b, k);
    }
  }

  function FrequencyKey(c: TagCount): Key
  {
    Num(c.frequency as real)
  }

  /** The module-level `tags_used` table: value counts of all tag entries, most
      frequent first. */
  function TagsUsed(records: seq<Record>): (tu: seq<TagCount>)
    ensures multiset(tu) == multiset(ValueCounts(Occurrences(records)))
    ensures SortedBy(tu, FrequencyKey, false)
  {
    SortBy(ValueCounts(Occurrences(records)), FrequencyKey, false)
  }

  /** Each row of `tags_used` carries its tag's number of entries, which is at least one. */
  lemma TagsUsedFrequencies(records: seq<Record>)
    ensures var occ, tu := Occurrences(records), TagsUsed(records);
      forall i :: 0 <= i < |tu| ==> tu[i].frequency == multiset(occ)[tu[i].tag] >= 1
  {
    var occ, tu := Occurrences(records), TagsUsed(records);
    var vc := ValueCounts(occ);
    forall i | 0 <= i < |tu|
      ensures tu[i].frequency == multiset(occ)[tu[i].tag] >= 1
    {
      assert tu[i] in multiset(vc);
    }
  }

  /** Every tag entry of every record has its row in `tags_used`. */
  lemma TagsUsedCoversEntries(records: seq<Record>)
    ensures var occ, tu := Occurrences(records), TagsUsed(records);
      forall t :: t in occ ==> exists i :: 0 <= i < |tu| && tu[i].tag == t
  {
    var occ, tu := Occurrences(records), TagsUsed(records);
    var vc := ValueCounts(occ);
    forall t | t in occ
      ensures exists i :: 0 <= i < |tu| && tu[i].tag == t
    {
      var k :| 0 <= k < |vc| && vc[k].tag == t;
      assert vc[k] in multiset(tu);
    }
  }

  /** The frequencies of `tags_used` add up to the number of tag entries. */
  lemma TagsUsedTotal(records: seq<Record>)
    ensures TotalFrequency(TagsUsed(records)) == |Occurrences(records)|
  {
    var occ := Occurrences(records);
    ValueCountsTotal(occ);
    TotalFrequencyPermutation(ValueCounts(occ), TagsUsed(records));
  }

  /** Frequencies never increase down `tags_used`. */
  lemma TagsUsedOrdered(records: seq<Record>)
    ensures var tu := TagsUsed(records);
      forall i, j :: 0 <= i < j < |tu| ==> tu[i].frequency >= tu[j].frequency
  {
    var tu := TagsUsed(records);
    forall i, j | 0 <= i < j < |tu|
      ensures tu[i].frequency >= tu[j].frequency
    {
      assert Precedes(FrequencyKey(tu[i]), FrequencyKey(tu[j]), false);
    }
  }

  // ---------------------------------------------------------------------------
  // get_tags_used: the fetched label rows joined with the frequencies

  /** A label row fetched from the tag store (its "Name" column renamed to tag). */
  datatype Label = Label(id: string, tag: string)

  /** A label row after the join: `frequency` is null for a tag no record carries. */
  datatype LabelUsage = LabelUsage(id: string, tag: string, slug: string, frequency: Option<nat>)

  /** Look a tag up in a frequency table, as the join does on the table's index. */
  function Lookup(vc: seq<TagCount>, tag: string): Option<nat>
  {
    if vc == [] then None
    else if vc[0].tag == tag then Some(vc[0].frequency)
    else Lookup(vc[1..], tag)
  }

  /** The join finds exactly the number of entries of a tag that occurs, and nothing for
      one that does not. */
  lemma {:induction false} LookupValueCounts(xs: seq<string>, tag: string)
    ensures Lookup(ValueCounts(xs), tag) == if tag in xs then Some(multiset(xs)[tag]) else None
    decreases |xs|
  {
    if xs != [] {
      var rest := RemoveAll(xs, xs[0]);
      var vc := ValueCounts(xs);
      assert vc[1..] == ValueCounts(rest);
      if xs[0] != tag {
        LookupValueCounts(rest, tag);
        assert multiset(rest)[tag] == multiset(xs)[tag];
        assert tag in rest <==> tag in multiset(rest);
        assert tag in xs <==> tag in multiset(xs);
      }
    }
  }

  function OptionalFrequencyKey(u: LabelUsage): Key
  {
    if u.frequency.Some? then Num(u.frequency.value as real) else Missing
  }

  /** The row a label becomes after the left join: its frequency if the tag occurs. */
  function Joined(l: Label, counts: seq<TagCount>, slugify: string -> string): LabelUsage
  {
    LabelUsage(l.id, l.tag, slugify(l.tag), Lookup(counts, l.tag))
  }

  /** `get_tags_used`, given the fetched label rows: every label joined with the
      frequency of its tag, most frequent first and null frequencies last. */
  function GetTagsUsed(labels: seq<Label>, records: seq<Record>, slugify: string -> string): (out: seq<LabelUsage>)
    ensures |out| == |labels|
    ensures SortedBy(out, OptionalFrequencyKey, false)
  {
    var counts := ValueCounts(Occurrences(records));
    SortBy(seq(|labels|, i requires 0 <= i < |labels| => Joined(labels[i], counts, slugify)),
           OptionalFrequencyKey, false)
  }

  /** The row a label should become: the number of entries of its tag when it occurs,
      null otherwise. */
  function Expected(l: Label, occ: seq<string>, slugify: string -> string): LabelUsage
  {
    LabelUsage(l.id, l.tag, slugify(l.tag), if l.tag in occ then Some(multiset(occ)[l.tag]) else None)
  }

  /** `get_tags_used` keeps every fetched label row exactly once, each with its tag's
      number of entries when the tag occurs in the records and a null frequency when it
      does not. */
  lemma GetTagsUsedRows(labels: seq<Label>, records: seq<Record>, slugify: string -> string)
    ensures var occ, out := Occurrences(records), GetTagsUsed(labels, records, slugify);
      && |out| == |labels|
      && multiset(out) == multiset(seq(|labels|, i requires 0 <= i < |labels| => Expected(labels[i], occ, slugify)))
  {
    var occ := Occurrences(records);
    var counts := ValueCounts(occ);
    var joined := seq(|labels|, i requires 0 <= i < |labels| => Joined(labels[i], counts, slugify));
    var expected := seq(|labels|, i requires 0 <= i < |labels| => Expected(labels[i], occ, slugify));
    forall i | 0 <= i < |labels|
      ensures joined[i] == expected[i]
    {
      LookupValueCounts(occ, labels[i].tag);
    }
    assert joined == expected;
  }

  /** No label row of `get_tags_used` has a frequency of 0: a label whose tag never
      occurs gets no frequency at all. */
  lemma GetTagsUsedNoZero(labels: seq<Label>, records: seq<Record>, slugify: string -> string)
    ensures var out := GetTagsUsed(labels, records, slugify);
      forall i :: 0 <= i < |out| && out[i].frequency.Some? ==> out[i].frequency.value >= 1
  {
    var occ, out := Occurrences(records), GetTagsUsed(labels, records, slugify);
    var expected := seq(|labels|, i requires 0 <= i < |labels| => Expected(labels[i], occ, slugify));
    GetTagsUsedRows(labels, records, slugify);
    forall i | 0 <= i < |out| && out[i].frequency.Some?
      ensures out[i].frequency.value >= 1
    {
      assert out[i] in multiset(expected);
      var k :| 0 <= k < |expected| && expected[k] == out[i];
      assert labels[k].tag in occ;
      assert labels[k].tag in multiset(occ);
    }
  }

  /** Frequencies never increase down `get_tags_used`, and the labels without one come last. */
  lemma GetTagsUsedOrdered(labels: seq<Label>, records: seq<Record>, slugify: string -> string)
    ensures var out := GetTagsUsed(labels, records, slugify);
      forall i, j :: 0 <= i < j < |out| && out[j].frequency.Some? ==>
        out[i].frequency.Some? && out[i].frequency.value >= out[j].frequency.value
  {
    var out := GetTagsUsed(labels, records, slugify);
    forall i, j | 0 <= i < j < |out| && out[j].frequency.Some?
      ensures out[i].frequency.Some? && out[i].frequency.value >= out[j].frequency.value
    {
      assert Precedes(OptionalFrequencyKey(out[i]), OptionalFrequencyKey(out[j]), false);
    }
  }

  // ---------------------------------------------------------------------------
  // get_keyword_result: the confusion partition

  /** The four result types, in the order of RESULT_TYPES. */
  datatype ResultType = FalsePositive | FalseNegative | TruePositive | TrueNegative
  {
    /** The key of the result type in RESULT_TYPES. */
    function Name(): string
    {
      match this
      case FalsePositive => "false-positive"
      case FalseNegative => "false-negative"
      case TruePositive => "true-positive"
      case TrueNegative => "true-negative"
    }
  }

  const ResultTypes: seq<ResultType> := [FalsePositive, FalseNegative, TruePositive, TrueNegative]

  /** One row of the result frame; `result` is null until one of the four assignments
      reaches the row. */
  datatype ResultRow = ResultRow(selected: bool, relevant: bool, result: Option<ResultType>)

  /** `tag in x if x else False`: a null or empty tag list is never relevant. */
  predicate Relevant(r: Record, tag: string)
    ensures Relevant(r, tag) <==> tag in TagList(r)
  {
    r.tags.Some? && r.tags.value != [] && tag in r.tags.value
  }

  /** A row carries exactly the result type its (selected, relevant) pair calls for. */
  predicate Classified(row: ResultRow)
  {
    && row.result.Some?
    && (row.result.value == TruePositive <==> row.selected && row.relevant)
    && (row.result.value == FalsePositive <==> row.selected && !row.relevant)
    && (row.result.value == TrueNegative <==> !row.selected && !row.relevant)
    && (row.result.value == FalseNegative <==> !row.selected && row.relevant)
  }

  /** `result.loc[mask, "result"] = kind` for the mask "selected is `whenSelected` and
      relevant is `whenRelevant`". */
  method AssignWhere(column: array<Option<ResultType>>, selected: seq<bool>, relevant: seq<bool>,
                     whenSelected: bool, whenRelevant: bool, kind: ResultType)
    requires column.Length == |selected| == |relevant|
    modifies column
    ensures forall i :: 0 <= i < column.Length ==>
              column[i] == if selected[i] == whenSelected && relevant[i] == whenRelevant then Some(kind) else old(column[i])
  {
    for i := 0 to column.Length
      invariant forall k :: 0 <= k < i ==>
                  column[k] == if selected[k] == whenSelected && relevant[k] == whenRelevant then Some(kind) else old(column[k])
      invariant forall k :: i <= k < column.Length ==> column[k] == old(column[k])
    {
      if selected[i] == whenSelected && relevant[i] == whenRelevant {
        column[i] := Some(kind);
      }
    }
  }

  /** `get_keyword_result(tag, pattern)`: one row per record, selected when the pattern
      finds a match in the record's text (case ignored), relevant when the record carries
      the tag, and classified by the pair. A pattern that does not compile raises. */
  method KeywordResult(engine: Engine, tag: string, pattern: string, records: seq<Record>, corpus: seq<string>)
    returns (result: Option<seq<ResultRow>>)
    requires Corpus(records) == Some(corpus)
    ensures result.None? <==> !engine.compiles(pattern)
    ensures result.Some? ==> |result.value| == |records|
    ensures result.Some? ==> forall i :: 0 <= i < |records| ==>
              && result.value[i].selected == engine.searchIgnoringCase(pattern, corpus[i])
              && result.value[i].relevant == Relevant(records[i], tag)
              && Classified(result.value[i])
  {
    if !engine.compiles(pattern) {
      return None;
    }
    var n := |records|;
    var selected := seq(n, i requires 0 <= i < n => engine.searchIgnoringCase(pattern, corpus[i]));
    var relevant := seq(n, i requires 0 <= i < n => Relevant(records[i], tag));
    var column := new Option<ResultType>[n](_ => None);
    AssignWhere(column, selected, relevant, true, true, TruePositive);
    AssignWhere(column, selected, relevant, true, false, FalsePositive);
    AssignWhere(column, selected, relevant, false, false, TrueNegative);
    AssignWhere(column, selected, relevant, false, true, FalseNegative);
    var labels := column[..];
    result := Some(seq(n, i requires 0 <= i < n => ResultRow(selected[i], relevant[i], labels[i])));
  }

  // ---------------------------------------------------------------------------
  // get_result_summary: counts and metrics

  function CountResult(rows: seq<ResultRow>, t: ResultType): nat
  {
    if rows == [] then 0 else (if rows[0].result == Some(t) then 1 else 0) + CountResult(rows[1..], t)
  }

  function CountRelevant(rows: seq<ResultRow>): nat
  {
    if rows == [] then 0 else (if rows[0].relevant then 1 else 0) + CountRelevant(rows[1..])
  }

  function CountSelected(rows: seq<ResultRow>): nat
  {
    if rows == [] then 0 else (if rows[0].selected then 1 else 0) + CountSelected(rows[1..])
  }

  /** Rows of two different result types are never more than all the rows. */
  lemma {:induction false} TwoResultTypesAtMostAll(rows: seq<ResultRow>, a: ResultType, b: ResultType)
    requires a != b
    ensures CountResult(rows, a) + CountResult(rows, b) <= |rows|
  {
    if rows != [] {
      TwoResultTypesAtMostAll(rows[1..], a, b);
    }
  }

  /** `num / den` on counts with `num <= den`: NaN (None) when `den` is 0, otherwise the
      fraction, which lies in [0, 1]. */
  function Ratio(num: nat, den: nat): (q: Option<real>)
    requires num <= den
    ensures q.None? <==> den == 0
    ensures q.Some? ==> 0.0 <= q.value <= 1.0 && q.value * den as real == num as real
  {
    if den == 0 then None else Some(num as real / den as real)
  }

  /** `2 * (p * r) / (p + r)`: NaN when either input is NaN or when both are 0; otherwise
      the harmonic mean of the two, in [0, 1] when both are. */
  function F1Score(p: Option<real>, r: Option<real>): (f: Option<real>)
    ensures f.None? <==> p.None? || r.None? || p.value + r.value == 0.0
    ensures f.Some? ==> f.value * (p.value + r.value) == 2.0 * p.value * r.value
    ensures f.Some? && 0.0 <= p.value <= 1.0 && 0.0 <= r.value <= 1.0 ==> 0.0 <= f.value <= 1.0
  {
    if p.None? || r.None? || p.value + r.value == 0.0 then None
    else
      var x, y := p.value, r.value;
      var v := 2.0 * (x * y) / (x + y);
      assert v * (x + y) == 2.0 * x * y;
      HarmonicMeanBounds(x, y, v);
      Some(v)
  }

  lemma HarmonicMeanBounds(x: real, y: real, v: real)
    requires x + y != 0.0 && v * (x + y) == 2.0 * x * y
    ensures 0.0 <= x <= 1.0 && 0.0 <= y <= 1.0 ==> 0.0 <= v <= 1.0
  {
    if 0.0 <= x <= 1.0 && 0.0 <= y <= 1.0 {
      NonNegativeProduct(x, 1.0 - y);
      NonNegativeProduct(y, 1.0 - x);
      NonNegativeProduct(x, y);
      assert x * (1.0 - y) == x - x * y;
      assert y * (1.0 - x) == y - x * y;
      assert v * (x + y) <= 1.0 * (x + y);
      assert x + y > 0.0;
      assert (v - 1.0) * (x + y) == v * (x + y) - (x + y);
      assert (-v) * (x + y) == -(v * (x + y));
      if v > 1.0 {
        PositiveProduct(v - 1.0, x + y);
        assert false;
      }
      if v < 0.0 {
        PositiveProduct(-v, x + y);
        assert false;
      }
    }
  }

  lemma NonNegativeProduct(a: real, b: real)
    requires a >= 0.0 && b >= 0.0
    ensures a * b >= 0.0
  {
  }

  lemma PositiveProduct(a: real, b: real)
    requires a > 0.0 && b > 0.0
    ensures a * b > 0.0
  {
  }

  /** The result summary: relevant and selected counts, the four partition counts, and
      the four metrics (None where pandas yields NaN). */
  datatype Summary = Summary(
    relevant: nat, selected: nat,
    falsePositive: nat, falseNegative: nat, truePositive: nat, trueNegative: nat,
    precision: Option<real>, recall: Option<real>, f1score: Option<real>, accuracy: Option<real>)

  /** The metric part of the summary, from the counts. */
  function Scores(relevant: nat, selected: nat, fp: nat, fn: nat, tp: nat, tn: nat, n: nat): (s: Summary)
    requires tp + tn <= n
    ensures s.precision.None? <==> tp + fp == 0
    ensures s.recall.None? <==> tp + fn == 0
    ensures s.accuracy.None? <==> n == 0
    ensures s.f1score.None? <==> tp + fp == 0 || tp + fn == 0 || tp == 0
    ensures s.f1score.Some? ==> 0.0 <= s.f1score.value <= 1.0
    ensures s.relevant == relevant && s.selected == selected
    ensures s.falsePositive == fp && s.falseNegative == fn && s.truePositive == tp && s.trueNegative == tn
    ensures s.precision.Some? ==> s.precision.value * (tp + fp) as real == tp as real
    ensures s.recall.Some? ==> s.recall.value * (tp + fn) as real == tp as real
    ensures s.accuracy.Some? ==> s.accuracy.value * n as real == (tp + tn) as real
    ensures s.f1score == F1Score(s.precision, s.recall)
  {
    var precision := Ratio(tp, tp + fp);
    var recall := Ratio(tp, tp + fn);
    Summary(relevant, selected, fp, fn, tp, tn, precision, recall, F1Score(precision, recall), Ratio(tp + tn, n))
  }

  /** The summary of a result frame. */
  function Summarize(rows: seq<ResultRow>): (s: Summary)
    ensures s.truePositive + s.trueNegative <= |rows| && s.falsePositive + s.falseNegative <= |rows|
    ensures s.accuracy.None? <==> rows == []
  {
    TwoResultTypesAtMostAll(rows, FalsePositive, FalseNegative);
    TwoResultTypesAtMostAll(rows, TruePositive, TrueNegative);
    Scores(CountRelevant(rows), CountSelected(rows),
           CountResult(rows, FalsePositive), CountResult(rows, FalseNegative),
           CountResult(rows, TruePositive), CountResult(rows, TrueNegative), |rows|)
  }

  /** `get_result_summary`: the relevant and selected counts, then one count per result
      type filled into the dict in a loop, then the metrics. */
  method GetResultSummary(rows: seq<ResultRow>) returns (s: Summary)
    ensures s == Summarize(rows)
  {
    var relevant, selected := CountRelevant(rows), CountSelected(rows);
    var counts: map<ResultType, nat> := map[];
    for k := 0 to |ResultTypes|
      invariant forall j :: 0 <= j < k ==> ResultTypes[j] in counts && counts[ResultTypes[j]] == CountResult(rows, ResultTypes[j])
    {
      counts := counts[ResultTypes[k] := CountResult(rows, ResultTypes[k])];
    }
    assert ResultTypes[0] == FalsePositive && ResultTypes[1] == FalseNegative;
    assert ResultTypes[2] == TruePositive && ResultTypes[3] == TrueNegative;
    TwoResultTypesAtMostAll(rows, TruePositive, TrueNegative);
    s := Scores(relevant, selected, counts[FalsePositive], counts[FalseNegative],
                counts[TruePositive], counts[TrueNegative], |rows|);
  }

  /** On a classified frame the four counts partition the rows, the relevant rows are the
      true positives and false negatives, and the selected rows the true and false
      positives. */
  lemma {:induction false} SummaryPartition(rows: seq<ResultRow>)
    requires forall i :: 0 <= i < |rows| ==> Classified(rows[i])
    ensures var s := Summarize(rows);
      && s.truePositive + s.falsePositive + s.trueNegative + s.falseNegative == |rows|
      && s.relevant == s.truePositive + s.falseNegative
      && s.selected == s.truePositive + s.falsePositive
  {
    CountsPartition(rows);
  }

  lemma {:induction false} CountsPartition(rows: seq<ResultRow>)
    requires forall i :: 0 <= i < |rows| ==> Classified(rows[i])
    ensures CountResult(rows, TruePositive) + CountResult(rows, FalsePositive)
          + CountResult(rows, TrueNegative) + CountResult(rows, FalseNegative) == |rows|
    ensures CountRelevant(rows) == CountResult(rows, TruePositive) + CountResult(rows, FalseNegative)
    ensures CountSelected(rows) == CountResult(rows, TruePositive) + CountResult(rows, FalsePositive)
  {
    if rows != [] {
      assert Classified(rows[0]);
      CountsPartition(rows[1..]);
    }
  }

  /** On a classified frame: precision is undefined exactly when nothing is selected,
      recall exactly when nothing is relevant, accuracy exactly when there are no rows;
      each defined metric lies in [0, 1]. */
  lemma SummaryMetrics(rows: seq<ResultRow>)
    requires forall i :: 0 <= i < |rows| ==> Classified(rows[i])
    ensures var s := Summarize(rows);
      && (s.precision.None? <==> s.selected == 0)
      && (s.recall.None? <==> s.relevant == 0)
      && (s.accuracy.None? <==> |rows| == 0)
      && (s.precision.Some? ==> 0.0 <= s.precision.value <= 1.0)
      && (s.recall.Some? ==> 0.0 <= s.recall.value <= 1.0)
      && (s.f1score.Some? ==> 0.0 <= s.f1score.value <= 1.0)
      && (s.accuracy.Some? ==> 0.0 <= s.accuracy.value <= 1.0)
  {
    CountsPartition(rows);
  }

  /** Each defined metric of `s` is its count ratio over `n` records: precision times the
      selected count is TP, recall times the relevant count is TP, and accuracy times
      `n` is TP+TN. */
  predicate MetricsAreRatios(s: Summary, n: nat)
  {
    && (s.precision.Some? ==> s.precision.value * s.selected as real == s.truePositive as real)
    && (s.recall.Some? ==> s.recall.value * s.relevant as real == s.truePositive as real)
    && (s.accuracy.Some? ==> s.accuracy.value * n as real == (s.truePositive + s.trueNegative) as real)
  }

  /** On a classified frame each defined metric is its count ratio. */
  lemma SummaryValues(rows: seq<ResultRow>)
    requires forall i :: 0 <= i < |rows| ==> Classified(rows[i])
    ensures MetricsAreRatios(Summarize(rows), |rows|)
  {
    var s := Summarize(rows);
    assert s.relevant == s.truePositive + s.falseNegative && s.selected == s.truePositive + s.falsePositive by {
      CountsPartition(rows);
    }
    ScoresOfPartition(s, |rows|);
  }

  /** The metrics of counts whose relevant and selected totals are TP+FN and TP+FP. */
  lemma ScoresOfPartition(s: Summary, n: nat)
    requires s.truePositive + s.trueNegative <= n
    requires s == Scores(s.relevant, s.selected, s.falsePositive, s.falseNegative, s.truePositive, s.trueNegative, n)
    requires s.relevant == s.truePositive + s.falseNegative && s.selected == s.truePositive + s.falsePositive
    ensures MetricsAreRatios(s, n)
  {
  }

  /** On a classified frame F1 is undefined exactly when nothing is selected, nothing is
      relevant, or there is no true positive. */
  lemma SummaryF1Defined(rows: seq<ResultRow>)
    requires forall i :: 0 <= i < |rows| ==> Classified(rows[i])
    ensures var s := Summarize(rows);
      s.f1score.None? <==> s.selected == 0 || s.relevant == 0 || s.truePositive == 0
  {
    CountsPartition(rows);
    var s := Summarize(rows);
    if s.precision.Some? && s.recall.Some? {
      var p, r := s.precision.value, s.recall.value;
      if s.truePositive == 0 {
        assert p * (s.truePositive + s.falsePositive) as real == 0.0;
        assert r * (s.truePositive + s.falseNegative) as real == 0.0;
        assert p == 0.0 && r == 0.0;
      } else {
        assert p * (s.truePositive + s.falsePositive) as real > 0.0;
        assert p > 0.0;
      }
    }
  }

  /** 8 true positives, 2 false positives, 2 false negatives and 88 true negatives score
      0.8 precision, 0.8 recall, 0.8 F1 and 0.96 accuracy. */
  lemma WorkedExample()
    ensures var s := Scores(10, 10, 2, 2, 8, 88, 100);
      s.precision == Some(0.8) && s.recall == Some(0.8) && s.f1score == Some(0.8) && s.accuracy == Some(0.96)
  {
  }
}
