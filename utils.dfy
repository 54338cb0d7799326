/** Model of tagger/utils.py: the colour class a statistic is shown in, and the
    display name of a tag. */
module Utils {
  import opened Wrappers

  /** A Python float as pandas stores a statistic: a finite number, or NaN. */
  datatype Float = Finite(value: real) | NaN

  /** The three colour classes of `stat_colour`. */
  datatype Colour = Green | Yellow | Red
  {
    /** How good the colour says the statistic is: green best, red worst. */
    function Rank(): nat
    {
      match this
      case Green => 2
      case Yellow => 1
      case Red => 0
    }
  }

  /** `stat_colour`: green above 0.75, yellow above 0.5, red otherwise. Every comparison
      with NaN is false in Python, so NaN falls through to red. */
  function StatColour(stat: Float): (c: Colour)
    ensures c == Green <==> stat.Finite? && stat.value > 0.75
    ensures c == Yellow <==> stat.Finite? && 0.5 < stat.value <= 0.75
    ensures c == Red <==> stat.NaN? || stat.value <= 0.5
  {
    if stat.Finite? && stat.value > 0.75 then Green
    else if stat.Finite? && stat.value > 0.5 then Yellow
    else Red
  }

  /** A higher statistic never gets a worse colour. */
  lemma StatColourMonotonic(x: real, y: real)
    requires x <= y
    ensures StatColour(Finite(x)).Rank() <= StatColour(Finite(y)).Rank()
  {
  }

  /** Python's `str.lower` on the ASCII letters. */
  function Lower(s: string): string
  {
    seq(|s|, i requires 0 <= i < |s| => if 'A' <= s[i] <= 'Z' then (s[i] as int + 32) as char else s[i])
  }

  /** `sep.join(parts)`. */
  function Join(parts: seq<string>, sep: string): (r: string)
    ensures parts != [] ==> |parts[0]| <= |r| && r[..|parts[0]|] == parts[0]
    ensures |parts| == 1 ==> r == parts[0]
  {
    if parts == [] then ""
    else if |parts| == 1 then parts[0]
    else parts[0] + sep + Join(parts[1..], sep)
  }

  /** The columns of a tag row that `get_tag_name` reads. `subcategory` is None when the
      cell does not hold a string (pandas gives NaN for an empty cell). */
  datatype TagRow = TagRow(category: string, subcategory: Option<string>, tag: string)

  /** The subcategory is named when it is a string that differs from the tag, ignoring case. */
  predicate NamesSubcategory(row: TagRow)
  {
    row.subcategory.Some? && Lower(row.tag) != Lower(row.subcategory.value)
  }

  /** The tag is named when it differs from the category, ignoring case. */
  predicate NamesTag(row: TagRow)
  {
    Lower(row.tag) != Lower(row.category)
  }

  /** The parts of a tag's display name, in order: the category always, then the
      subcategory and the tag when they are named. */
  function TagNameParts(row: TagRow): (parts: seq<string>)
    ensures |parts| == 1 + (if NamesSubcategory(row) then 1 else 0) + (if NamesTag(row) then 1 else 0)
    ensures parts[0] == row.category
    ensures NamesSubcategory(row) ==> parts[1] == row.subcategory.value
    ensures NamesTag(row) ==> parts[|parts| - 1] == row.tag
  {
    [row.category]
    + (if NamesSubcategory(row) then [row.subcategory.value] else [])
    + (if NamesTag(row) then [row.tag] else [])
  }

  /** `get_tag_name`: builds the list of parts by appending, then joins it with " - ". */
  method GetTagName(row: TagRow) returns (name: string)
    ensures name == Join(TagNameParts(row), " - ")
    ensures |row.category| <= |name| && name[..|row.category|] == row.category
    ensures row.subcategory.None? && Lower(row.tag) == Lower(row.category) ==> name == row.category
  {
    var parts := [row.category];
    if row.subcategory.Some? && Lower(row.tag) != Lower(row.subcategory.value) {
      parts := parts + [row.subcategory.value];
    }
    if Lower(row.tag) != Lower(row.category) {
      parts := parts + [row.tag];
    }
    name := Join(parts, " - ");
  }
}
