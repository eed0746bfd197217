/**
 * The client's table sorting: the column/direction toggle of `handleSort`
 * and the comparator that `sortedLeaderboard` and `sortedRooms` pass to
 * `Array.prototype.sort` on a copy of the stored rows.
 */
module TableSort {

  /**
   * A row's value in the sort column, as JavaScript's `<` sees it: a
   * number, a string, or anything else (a missing field, an object).
   */
  datatype Cell = Num(n: int) | Str(s: string) | Opaque

  datatype Direction = Asc | Desc

  datatype SortConfig = SortConfig(key: string, direction: Direction)

  /**
   * `handleSort`'s new configuration for a table: the clicked column, in
   * ascending order only when that column was already sorted descending.
   */
  function NextSortConfig(current: SortConfig, key: string): (r: SortConfig)
    ensures r.key == key
    ensures r.direction == Asc <==> current.key == key && current.direction == Desc
  {
    if current.key == key && current.direction == Desc then SortConfig(key, Asc)
    else SortConfig(key, Desc)
  }

  /** Clicking the sorted column again flips its direction. */
  lemma SameColumnFlips(current: SortConfig)
    ensures NextSortConfig(current, current.key).direction != current.direction
  {
  }

  /** A new column starts descending; a second click on it makes it ascending, a third descending again. */
  lemma ClicksAlternate(current: SortConfig, key: string)
    requires current.key != key
    ensures NextSortConfig(current, key) == SortConfig(key, Desc)
    ensures NextSortConfig(NextSortConfig(current, key), key) == SortConfig(key, Asc)
    ensures NextSortConfig(NextSortConfig(NextSortConfig(current, key), key), key) == SortConfig(key, Desc)
  {
  }

  /** String `<`: lexicographic order, character by character. */
  predicate StrBelow(a: string, b: string) {
    if a == [] then b != []
    else if b == [] then false
    else if a[0] != b[0] then a[0] < b[0]
    else StrBelow(a[1..], b[1..])
  }

  lemma {:induction false} StrBelowAsymmetric(a: string, b: string)
    ensures !(StrBelow(a, b) && StrBelow(b, a))
  {
    if a != [] && b != [] && a[0] == b[0] {
      StrBelowAsymmetric(a[1..], b[1..]);
    }
  }

  /** Two different strings are always ordered one way or the other. */
  lemma {:induction false} StrBelowTotal(a: string, b: string)
    requires a != b
    ensures StrBelow(a, b) || StrBelow(b, a)
  {
    if a != [] && b != [] && a[0] == b[0] {
      assert a == [a[0]] + a[1..] && b == [b[0]] + b[1..];
      StrBelowTotal(a[1..], b[1..]);
    }
  }

  lemma {:induction false} StrBelowTransitive(a: string, b: string, c: string)
    requires StrBelow(a, b) && StrBelow(b, c)
    ensures StrBelow(a, c)
  {
    if a != [] && a[0] == b[0] && b[0] == c[0] {
      StrBelowTransitive(a[1..], b[1..], c[1..]);
    }
  }

  /** JavaScript's `a < b` on cells; cells of different kinds are not ordered. */
  predicate Below(a: Cell, b: Cell) {
    match (a, b)
    case (Num(x), Num(y)) => x < y
    case (Str(x), Str(y)) => StrBelow(x, y)
    case _ => false
  }

  predicate SameKind(a: Cell, b: Cell) {
    (a.Num? && b.Num?) || (a.Str? && b.Str?) || (a.Opaque? && b.Opaque?)
  }

  /**
   * The comparator of the sorted views: -1 when `a` goes first, 1 when `b`
   * does, and 0 exactly when neither is below the other.
   */
  function Compare(a: Cell, b: Cell, dir: Direction): (r: int)
    ensures -1 <= r <= 1
    ensures r == 0 <==> !Below(a, b) && !Below(b, a)
    ensures Below(a, b) ==> r == (if dir == Asc then -1 else 1)
  {
    if Below(a, b) then (if dir == Asc then -1 else 1)
    else if Below(b, a) then (if dir == Asc then 1 else -1)
    else 0
  }

  /** Swapping the two rows negates the comparator. */
  lemma CompareFlip(a: Cell, b: Cell, dir: Direction)
    ensures Compare(a, b, dir) == -Compare(b, a, dir)
  {
    if a.Str? && b.Str? {
      StrBelowAsymmetric(a.s, b.s);
    }
  }

  /** In a column of one kind, "comes no later than" is transitive. */
  lemma CompareTransitive(a: Cell, b: Cell, c: Cell, dir: Direction)
    requires SameKind(a, b) && SameKind(b, c)
    requires Compare(a, b, dir) <= 0 && Compare(b, c, dir) <= 0
    ensures Compare(a, c, dir) <= 0
  {
    if a.Str? {
      var x, y, z := a.s, b.s, c.s;
      StrBelowAsymmetric(x, y);
      StrBelowAsymmetric(y, z);
      StrBelowAsymmetric(x, z);
      if x != y { StrBelowTotal(x, y); }
      if y != z { StrBelowTotal(y, z); }
      if StrBelow(x, y) && StrBelow(y, z) { StrBelowTransitive(x, y, z); }
      if StrBelow(y, x) && StrBelow(z, y) { StrBelowTransitive(z, y, x); }
    }
  }

  /** In a column of one kind, the comparator calls two cells equal only when they are. */
  lemma TieMeansEqual(a: Cell, b: Cell, dir: Direction)
    requires SameKind(a, b)
    ensures Compare(a, b, dir) == 0 <==> a == b
  {
    if a.Str? {
      StrBelowAsymmetric(a.s, a.s);
      if a != b {
        StrBelowTotal(a.s, b.s);
      }
    }
  }

  /** Every row's sort cell is of one kind: all numbers, all strings, or all neither. */
  ghost predicate Uniform<R>(s: seq<R>, key: R -> Cell) {
    forall i, j :: 0 <= i < |s| && 0 <= j < |s| ==> SameKind(key(s[i]), key(s[j]))
  }

  /** Rows in comparator order: no row is placed after one it should precede. */
  ghost predicate Ordered<R>(s: seq<R>, key: R -> Cell, dir: Direction) {
    forall i, j :: 0 <= i < j < |s| ==> Compare(key(s[i]), key(s[j]), dir) <= 0
  }

  /** The rows of `s` whose sort cell is `c`, in their order in `s`. */
  function WithCell<R>(s: seq<R>, key: R -> Cell, c: Cell): seq<R> {
    if s == [] then []
    else if key(s[0]) == c then [s[0]] + WithCell(s[1..], key, c)
    else WithCell(s[1..], key, c)
  }

  lemma {:induction false} WithCellAppend<R>(a: seq<R>, b: seq<R>, key: R -> Cell, c: Cell)
    ensures WithCell(a + b, key, c) == WithCell(a, key, c) + WithCell(b, key, c)
  {
    if a == [] {
      assert a + b == b;
    } else {
      assert (a + b)[1..] == a[1..] + b;
      WithCellAppend(a[1..], b, key, c);
    }
  }

  /** Inserts `x` in front of the first row it does not come after. */
  function Insert<R(==)>(x: R, s: seq<R>, key: R -> Cell, dir: Direction): (r: seq<R>)
    ensures multiset(r) == multiset(s) + multiset{x}
  {
    if s == [] || Compare(key(x), key(s[0]), dir) <= 0 then [x] + s
    else
      assert s == [s[0]] + s[1..];
      [s[0]] + Insert(x, s[1..], key, dir)
  }

  /** `b` comes no later than any row of `s`. */
  ghost predicate Leads<R>(b: R, s: seq<R>, key: R -> Cell, dir: Direction) {
    forall k :: 0 <= k < |s| ==> Compare(key(b), key(s[k]), dir) <= 0
  }

  lemma {:induction false} InsertLeads<R>(b: R, x: R, s: seq<R>, key: R -> Cell, dir: Direction)
    requires Leads(b, s, key, dir) && Compare(key(b), key(x), dir) <= 0
    ensures Leads(b, Insert(x, s, key, dir), key, dir)
  {
    if s != [] && Compare(key(x), key(s[0]), dir) > 0 {
      InsertLeads(b, x, s[1..], key, dir);
      var rest := Insert(x, s[1..], key, dir);
      assert Insert(x, s, key, dir) == [s[0]] + rest;
    }
  }

  /** `b` followed by an ordered `s` that it leads is ordered. */
  lemma ConsOrdered<R>(b: R, s: seq<R>, key: R -> Cell, dir: Direction)
    requires Ordered(s, key, dir) && Leads(b, s, key, dir)
    ensures Ordered([b] + s, key, dir)
  {
    var r := [b] + s;
    forall i, j | 0 <= i < j < |r| ensures Compare(key(r[i]), key(r[j]), dir) <= 0 {
      assert r[j] == s[j - 1];
      if i > 0 {
        assert r[i] == s[i - 1];
      }
    }
  }

  /** The tail of an ordered list of one kind is ordered, of one kind, and led by the head. */
  lemma OrderedTail<R>(s: seq<R>, key: R -> Cell, dir: Direction)
    requires s != [] && Ordered(s, key, dir)
    ensures Ordered(s[1..], key, dir) && Leads(s[0], s[1..], key, dir)
  {
    var tail := s[1..];
    forall i, j | 0 <= i < j < |tail| ensures Compare(key(tail[i]), key(tail[j]), dir) <= 0 {
      assert tail[i] == s[i + 1] && tail[j] == s[j + 1];
    }
    forall k | 0 <= k < |tail| ensures Compare(key(s[0]), key(tail[k]), dir) <= 0 {
      assert tail[k] == s[k + 1];
    }
  }

  /** In a list of one kind, a row that comes no later than the head leads the whole list. */
  lemma LeadsByHead<R>(x: R, s: seq<R>, key: R -> Cell, dir: Direction)
    requires s != [] && Ordered(s, key, dir) && Uniform([x] + s, key)
    requires Compare(key(x), key(s[0]), dir) <= 0
    ensures Leads(x, s, key, dir)
  {
    var xs := [x] + s;
    forall k | 0 <= k < |s| ensures Compare(key(x), key(s[k]), dir) <= 0 {
      if k > 0 {
        assert xs[0] == x && xs[1] == s[0] && xs[k + 1] == s[k];
        CompareTransitive(key(x), key(s[0]), key(s[k]), dir);
      }
    }
  }

  lemma {:induction false} InsertOrdered<R>(x: R, s: seq<R>, key: R -> Cell, dir: Direction)
    requires Ordered(s, key, dir) && Uniform([x] + s, key)
    ensures Ordered(Insert(x, s, key, dir), key, dir)
  {
    if s == [] {
    } else if Compare(key(x), key(s[0]), dir) <= 0 {
      LeadsByHead(x, s, key, dir);
      ConsOrdered(x, s, key, dir);
    } else {
      var tail := s[1..];
      OrderedTail(s, key, dir);
      assert Uniform([x] + tail, key) by {
        var xs, xt := [x] + s, [x] + tail;
        forall i, j | 0 <= i < |xt| && 0 <= j < |xt| ensures SameKind(key(xt[i]), key(xt[j])) {
          assert xt[i] == xs[if i == 0 then 0 else i + 1];
          assert xt[j] == xs[if j == 0 then 0 else j + 1];
        }
      }
      InsertOrdered(x, tail, key, dir);
      CompareFlip(key(x), key(s[0]), dir);
      InsertLeads(s[0], x, tail, key, dir);
      ConsOrdered(s[0], Insert(x, tail, key, dir), key, dir);
    }
  }

  lemma {:induction false} InsertStable<R>(x: R, s: seq<R>, key: R -> Cell, dir: Direction, c: Cell)
    ensures WithCell(Insert(x, s, key, dir), key, c) == WithCell([x] + s, key, c)
  {
    if s != [] && Compare(key(x), key(s[0]), dir) > 0 {
      var rest := s[1..];
      assert s == [s[0]] + rest;
      InsertStable(x, rest, key, dir, c);
      CompareFlip(key(x), key(s[0]), dir);
      WithCellAppend([s[0]], Insert(x, rest, key, dir), key, c);
      WithCellAppend([x], rest, key, c);
      WithCellAppend([s[0]], rest, key, c);
      WithCellAppend([x], s, key, c);
    }
  }

  /**
   * A sorted view: the rows, sorted by `key` in direction `dir` by a stable
   * sort, in a new sequence.
   */
  function SortView<R(==)>(rows: seq<R>, key: R -> Cell, dir: Direction): (r: seq<R>)
    ensures multiset(r) == multiset(rows)
    ensures |r| == |rows|
  {
    if rows == [] then []
    else
      assert rows == [rows[0]] + rows[1..];
      Insert(rows[0], SortView(rows[1..], key, dir), key, dir)
  }

  /** The view is in comparator order. */
  lemma {:induction false} SortViewOrdered<R>(rows: seq<R>, key: R -> Cell, dir: Direction)
    requires Uniform(rows, key)
    ensures Ordered(SortView(rows, key, dir), key, dir)
  {
    if rows != [] {
      var tail := rows[1..];
      assert Uniform(tail, key) by {
        forall i, j | 0 <= i < |tail| && 0 <= j < |tail| ensures SameKind(key(tail[i]), key(tail[j])) {
          assert tail[i] == rows[i + 1] && tail[j] == rows[j + 1];
        }
      }
      SortViewOrdered(tail, key, dir);
      var sorted := SortView(tail, key, dir);
      var xs := [rows[0]] + sorted;
      assert Uniform(xs, key) by {
        forall i, j | 0 <= i < |xs| && 0 <= j < |xs| ensures SameKind(key(xs[i]), key(xs[j])) {
          assert xs[i] in multiset(rows) && xs[j] in multiset(rows) by {
            assert multiset(xs) == multiset(rows) by { assert rows == [rows[0]] + tail; }
          }
          var p :| 0 <= p < |rows| && rows[p] == xs[i];
          var q :| 0 <= q < |rows| && rows[q] == xs[j];
        }
      }
      InsertOrdered(rows[0], sorted, key, dir);
    }
  }

  /** Rows with the same sort cell keep the order they had. */
  lemma {:induction false} SortViewStable<R>(rows: seq<R>, key: R -> Cell, dir: Direction, c: Cell)
    ensures WithCell(SortView(rows, key, dir), key, c) == WithCell(rows, key, c)
  {
    if rows != [] {
      SortViewStable(rows[1..], key, dir, c);
      InsertStable(rows[0], SortView(rows[1..], key, dir), key, dir, c);
      WithCellAppend([rows[0]], SortView(rows[1..], key, dir), key, c);
      WithCellAppend([rows[0]], rows[1..], key, c);
      assert rows == [rows[0]] + rows[1..];
    }
  }

  /** Rows already in comparator order are left as they are. */
  lemma {:induction false} SortViewOfOrdered<R>(rows: seq<R>, key: R -> Cell, dir: Direction)
    requires Ordered(rows, key, dir)
    ensures SortView(rows, key, dir) == rows
  {
    if rows != [] {
      assert Ordered(rows[1..], key, dir) by {
        forall i, j | 0 <= i < j < |rows[1..]| ensures Compare(key(rows[1..][i]), key(rows[1..][j]), dir) <= 0 {
          assert rows[1..][i] == rows[i + 1] && rows[1..][j] == rows[j + 1];
        }
      }
      SortViewOfOrdered(rows[1..], key, dir);
      assert rows == [rows[0]] + rows[1..];
    }
  }

  /** Sorting a sorted view again changes nothing. */
  lemma SortViewIdempotent<R>(rows: seq<R>, key: R -> Cell, dir: Direction)
    requires Uniform(rows, key)
    ensures SortView(SortView(rows, key, dir), key, dir) == SortView(rows, key, dir)
  {
    SortViewOrdered(rows, key, dir);
    SortViewOfOrdered(SortView(rows, key, dir), key, dir);
  }
}
