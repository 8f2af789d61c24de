/**
 * `df.sort_values("value", ascending=False)`: the table ordered by value,
 * highest first, with missing values (NaN) at the end.
 */
module Ranking {
  import opened Listings

  /** `a` may come before `b` in the descending order with NaN last. */
  predicate Precedes(a: Float, b: Float) {
    b.NaN? || (a.Num? && a.x >= b.x)
  }

  /** Every row's value may precede the value of every later row. */
  predicate Ranked(rows: seq<Row>) {
    forall i, j :: 0 <= i < j < |rows| ==> Precedes(rows[i].value, rows[j].value)
  }

  /** Any two values can be ordered one way or the other. */
  lemma PrecedesTotal(a: Float, b: Float)
    ensures Precedes(a, b) || Precedes(b, a)
  {
    if a.Num? && b.Num? {
      assert a.x >= b.x || b.x >= a.x;
    }
  }

  /** `row` placed into a ranked table. */
  function Insert(row: Row, rows: seq<Row>): (r: seq<Row>)
    requires Ranked(rows)
    ensures Ranked(r)
    ensures multiset(r) == multiset(rows) + multiset{row}
  {
    if rows == [] || Precedes(row.value, rows[0].value) then
      InsertFront(row, rows);
      [row] + rows
    else
      var tail := Insert(row, rows[1..]);
      InsertBehind(row, rows, tail);
      [rows[0]] + tail
  }

  lemma InsertFront(row: Row, rows: seq<Row>)
    requires Ranked(rows) && (rows == [] || Precedes(row.value, rows[0].value))
    ensures Ranked([row] + rows)
  {
    var r := [row] + rows;
    forall i, j | 0 <= i < j < |r|
      ensures Precedes(r[i].value, r[j].value)
    {
      assert r[j] == rows[j - 1];
      if i == 0 && j > 1 {
        assert Precedes(rows[0].value, rows[j - 1].value);
      } else if i > 0 {
        assert r[i] == rows[i - 1];
      }
    }
  }

  lemma InsertBehind(row: Row, rows: seq<Row>, tail: seq<Row>)
    requires Ranked(rows) && rows != [] && !Precedes(row.value, rows[0].value)
    requires Ranked(tail) && multiset(tail) == multiset(rows[1..]) + multiset{row}
    ensures Ranked([rows[0]] + tail)
    ensures multiset([rows[0]] + tail) == multiset(rows) + multiset{row}
  {
    assert rows == [rows[0]] + rows[1..];
    PrecedesTotal(row.value, rows[0].value);
    var r := [rows[0]] + tail;
    forall i, j | 0 <= i < j < |r|
      ensures Precedes(r[i].value, r[j].value)
    {
      assert r[j] == tail[j - 1];
      if i == 0 {
        var x := tail[j - 1];
        assert x in multiset(tail);
        if x != row {
          assert x in multiset(rows[1..]);
          var k :| 0 <= k < |rows[1..]| && rows[1..][k] == x;
          assert rows[k + 1] == x;
        }
      } else {
        assert r[i] == tail[i - 1];
      }
    }
  }

  /** The rows in descending order of value, NaN last: ranked, and the same rows. */
  function SortByValue(rows: seq<Row>): (r: seq<Row>)
    ensures Ranked(r)
    ensures multiset(r) == multiset(rows)
  {
    if rows == [] then []
    else
      assert rows == [rows[0]] + rows[1..];
      Insert(rows[0], SortByValue(rows[1..]))
  }
}
