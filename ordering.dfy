/** pandas' `sort_values` on one column, as the tagger uses it: rows are ordered by the
    column's value in the chosen direction, and missing values (NaN/None) go last
    whichever the direction (pandas' default `na_position="last"`). The row order among
    equal keys is not specified (pandas' default sort is not stable), so the model
    promises only that the output is ordered and is a permutation of the input. */
module Ordering {

  /** One cell of the sort column: a number, a string, or missing. */
  datatype Key = Num(n: real) | Text(s: string) | Missing

  /** Python's ordering of `str`: lexicographic by code point. */
  predicate LexLe(a: string, b: string)
  {
    a == [] || (b != [] && (a[0] < b[0] || (a[0] == b[0] && LexLe(a[1..], b[1..]))))
  }

  lemma {:induction false} LexLeTotal(a: string, b: string)
    ensures LexLe(a, b) || LexLe(b, a)
  {
    if a != [] && b != [] && a[0] == b[0] {
      LexLeTotal(a[1..], b[1..]);
    }
  }

  lemma {:induction false} LexLeTransitive(a: string, b: string, c: string)
    requires LexLe(a, b) && LexLe(b, c)
    ensures LexLe(a, c)
  {
    if a != [] && a[0] == b[0] && b[0] == c[0] {
      LexLeTransitive(a[1..], b[1..], c[1..]);
    }
  }

  /** Ascending order on present keys: numbers by value, strings by LexLe. A column is
      never mixed in the tagger; numbers are put before strings only to make the order total. */
  predicate ValueLe(a: Key, b: Key)
  {
    match (a, b)
    case (Num(x), Num(y)) => x <= y
    case (Text(x), Text(y)) => LexLe(x, y)
    case (Num(_), Text(_)) => true
    case _ => false
  }

  /** A row keyed `a` may stand before a row keyed `b` in the sorted output. */
  predicate Precedes(a: Key, b: Key, ascending: bool)
  {
    if a.Missing? then b.Missing?
    else if b.Missing? then true
    else if ascending then ValueLe(a, b)
    else ValueLe(b, a)
  }

  lemma PrecedesTotal(a: Key, b: Key, ascending: bool)
    ensures Precedes(a, b, ascending) || Precedes(b, a, ascending)
  {
    if a.Text? && b.Text? {
      LexLeTotal(a.s, b.s);
    }
  }

  lemma PrecedesTransitive(a: Key, b: Key, c: Key, ascending: bool)
    requires Precedes(a, b, ascending) && Precedes(b, c, ascending)
    ensures Precedes(a, c, ascending)
  {
    if a.Text? && b.Text? && c.Text? {
      if ascending {
        LexLeTransitive(a.s, b.s, c.s);
      } else {
        LexLeTransitive(c.s, b.s, a.s);
      }
    }
  }

  /** Every earlier row may stand before every later one. */
  predicate SortedBy<T>(s: seq<T>, key: T -> Key, ascending: bool)
  {
    forall i, j :: 0 <= i < j < |s| ==> Precedes(key(s[i]), key(s[j]), ascending)
  }

  lemma ConsSorted<T>(h: T, s: seq<T>, key: T -> Key, ascending: bool)
    requires SortedBy(s, key, ascending)
    requires forall j :: 0 <= j < |s| ==> Precedes(key(h), key(s[j]), ascending)
    ensures SortedBy([h] + s, key, ascending)
  {
    var r := [h] + s;
    forall i, j | 0 <= i < j < |r|
      ensures Precedes(key(r[i]), key(r[j]), ascending)
    {
      if i > 0 {
        assert r[i] == s[i - 1] && r[j] == s[j - 1];
      }
    }
  }

  /** Insert `x` into the sorted `s`, before the first row it may precede. */
  function Insert<T(==)>(x: T, s: seq<T>, key: T -> Key, ascending: bool): (r: seq<T>)
    requires SortedBy(s, key, ascending)
    ensures multiset(r) == multiset(s) + multiset{x}
    ensures SortedBy(r, key, ascending)
  {
    if s == [] then [x]
    else if Precedes(key(x), key(s[0]), ascending) then
      InsertFront(x, s, key, ascending);
      [x] + s
    else
      var rest := Insert(x, s[1..], key, ascending);
      assert s == [s[0]] + s[1..];
      InsertBehind(x, s, rest, key, ascending);
      [s[0]] + rest
  }

  lemma InsertFront<T>(x: T, s: seq<T>, key: T -> Key, ascending: bool)
    requires SortedBy(s, key, ascending) && s != []
    requires Precedes(key(x), key(s[0]), ascending)
    ensures SortedBy([x] + s, key, ascending)
  {
    forall j | 0 <= j < |s|
      ensures Precedes(key(x), key(s[j]), ascending)
    {
      if j > 0 {
        PrecedesTransitive(key(x), key(s[0]), key(s[j]), ascending);
      }
    }
    ConsSorted(x, s, key, ascending);
  }

  lemma InsertBehind<T>(x: T, s: seq<T>, rest: seq<T>, key: T -> Key, ascending: bool)
    requires SortedBy(s, key, ascending) && s != []
    requires !Precedes(key(x), key(s[0]), ascending)
    requires SortedBy(rest, key, ascending)
    requires multiset(rest) == multiset(s[1..]) + multiset{x}
    ensures SortedBy([s[0]] + rest, key, ascending)
  {
    PrecedesTotal(key(x), key(s[0]), ascending);
    forall j | 0 <= j < |rest|
      ensures Precedes(key(s[0]), key(rest[j]), ascending)
    {
      assert rest[j] in multiset(rest);
      if rest[j] != x {
        assert rest[j] in multiset(s[1..]);
        var k :| 0 <= k < |s[1..]| && s[1..][k] == rest[j];
        assert s[k + 1] == rest[j];
      }
    }
    ConsSorted(s[0], rest, key, ascending);
  }

  /** `sort_values` on the column `key`: ordered in the chosen direction, missing last,
      and a permutation of the input. */
  function SortBy<T(==)>(s: seq<T>, key: T -> Key, ascending: bool): (r: seq<T>)
    ensures multiset(r) == multiset(s) && |r| == |s|
    ensures SortedBy(r, key, ascending)
  {
    if s == [] then []
    else
      assert s == [s[0]] + s[1..];
      Insert(s[0], SortBy(s[1..], key, ascending), key, ascending)
  }
}
