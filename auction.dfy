/**
 * The `HetznerAuction` object: its construction from the feed's server
 * list, the `data` property and setter, and the RAM filter that narrows
 * `data` in place.
 */
module Auction {
  import opened Results
  import opened Listings
  import opened Ranking

  /** `df[mask]`: the rows that satisfy `keep`, in their order. */
  function Where(rows: seq<Row>, keep: Row -> bool): (r: seq<Row>)
    ensures |r| <= |rows|
    ensures forall i :: 0 <= i < |r| ==> keep(r[i])
    ensures forall row :: multiset(r)[row] == if keep(row) then multiset(rows)[row] else 0
  {
    if rows == [] then []
    else
      assert rows == [rows[0]] + rows[1..];
      (if keep(rows[0]) then [rows[0]] else []) + Where(rows[1..], keep)
  }

  /** `a` is `b` with some rows removed and the order of the others kept. */
  ghost predicate SubsequenceOf(a: seq<Row>, b: seq<Row>) {
    if a == [] then true
    else if b == [] then false
    else (a[0] == b[0] && SubsequenceOf(a[1..], b[1..])) || SubsequenceOf(a, b[1..])
  }

  lemma {:induction false} WhereSubsequence(rows: seq<Row>, keep: Row -> bool)
    ensures SubsequenceOf(Where(rows, keep), rows)
  {
    if rows != [] {
      WhereSubsequence(rows[1..], keep);
      var r := Where(rows, keep);
      if keep(rows[0]) {
        assert r[0] == rows[0] && r[1..] == Where(rows[1..], keep);
      } else {
        assert r == Where(rows[1..], keep);
        if r != [] {
          assert SubsequenceOf(r, rows[1..]);
        }
      }
    }
  }

  /** A selection of a selection is a selection: subsequences compose. */
  lemma {:induction false} SubsequenceTrans(a: seq<Row>, b: seq<Row>, c: seq<Row>)
    requires SubsequenceOf(a, b) && SubsequenceOf(b, c)
    ensures SubsequenceOf(a, c)
    decreases |c|
  {
    if a != [] {
      assert c != [];
      if b[0] == c[0] && SubsequenceOf(b[1..], c[1..]) {
        if a[0] == b[0] && SubsequenceOf(a[1..], b[1..]) {
          SubsequenceTrans(a[1..], b[1..], c[1..]);
        } else {
          SubsequenceTrans(a, b[1..], c[1..]);
        }
      } else {
        SubsequenceTrans(a, b, c[1..]);
      }
    }
  }

  /** Filters with the same verdict on every row select the same rows. */
  lemma {:induction false} WhereSame(rows: seq<Row>, p: Row -> bool, q: Row -> bool)
    requires forall row :: p(row) == q(row)
    ensures Where(rows, p) == Where(rows, q)
  {
    if rows != [] {
      WhereSame(rows[1..], p, q);
    }
  }

  /** Two masks applied one after the other select what their conjunction selects. */
  lemma {:induction false} WhereWhere(rows: seq<Row>, p: Row -> bool, q: Row -> bool, both: Row -> bool)
    requires forall row :: both(row) == (p(row) && q(row))
    ensures Where(Where(rows, p), q) == Where(rows, both)
  {
    if rows != [] {
      var head, rest := rows[0], rows[1..];
      WhereWhere(rest, p, q, both);
      var tail := Where(rest, p);
      if p(head) {
        var once := [head] + tail;
        assert Where(rows, p) == once;
        assert once[0] == head && once[1..] == tail;
        assert Where(once, q) == (if q(head) then [head] else []) + Where(tail, q);
      } else {
        assert Where(rows, p) == tail;
      }
      assert Where(rows, both) == (if both(head) then [head] else []) + Where(rest, both);
    }
  }

  /** A mask every row passes keeps the table as it is. */
  lemma {:induction false} WhereAll(rows: seq<Row>, keep: Row -> bool)
    requires forall i :: 0 <= i < |rows| ==> keep(rows[i])
    ensures Where(rows, keep) == rows
  {
    if rows != [] {
      WhereAll(rows[1..], keep);
      assert rows == [rows[0]] + rows[1..];
    }
  }

  /** `ram` inside the bounds given among the keyword arguments, both inclusive. */
  predicate RamWithin(row: Row, kwargs: map<string, real>) {
    && ("ram_max" in kwargs ==> row.ram as real <= kwargs["ram_max"])
    && ("ram_min" in kwargs ==> row.ram as real >= kwargs["ram_min"])
  }

  /** The rows `filter_ram(**kwargs)` keeps, in order; nothing else changes in them. */
  function RamSelection(rows: seq<Row>, kwargs: map<string, real>): (r: seq<Row>)
    ensures forall row :: multiset(r)[row] == if RamWithin(row, kwargs) then multiset(rows)[row] else 0
    ensures SubsequenceOf(r, rows)
  {
    WhereSubsequence(rows, row => RamWithin(row, kwargs));
    Where(rows, row => RamWithin(row, kwargs))
  }

  /** Without `ram_min` and `ram_max` the filter keeps every row. */
  lemma NoBoundsKeepsAll(rows: seq<Row>, kwargs: map<string, real>)
    requires "ram_max" !in kwargs && "ram_min" !in kwargs
    ensures RamSelection(rows, kwargs) == rows
  {
    WhereAll(rows, row => RamWithin(row, kwargs));
  }

  /** Applying the filter twice with the same bounds equals applying it once. */
  lemma FilterIdempotent(rows: seq<Row>, kwargs: map<string, real>)
    ensures RamSelection(RamSelection(rows, kwargs), kwargs) == RamSelection(rows, kwargs)
  {
    var r := RamSelection(rows, kwargs);
    assert forall i :: 0 <= i < |r| ==> RamWithin(r[i], kwargs);
    WhereAll(r, row => RamWithin(row, kwargs));
  }

  /**
   * Chained calls narrow: the second call keeps the rows within both sets of
   * bounds, in their order, and never adds a row.
   */
  lemma FilterChained(rows: seq<Row>, first: map<string, real>, second: map<string, real>)
    ensures RamSelection(RamSelection(rows, first), second)
            == Where(rows, row => RamWithin(row, first) && RamWithin(row, second))
    ensures SubsequenceOf(RamSelection(RamSelection(rows, first), second), RamSelection(rows, first))
    ensures SubsequenceOf(RamSelection(RamSelection(rows, first), second), rows)
    ensures |RamSelection(RamSelection(rows, first), second)| <= |RamSelection(rows, first)|
  {
    SubsequenceTrans(RamSelection(RamSelection(rows, first), second), RamSelection(rows, first), rows);
    WhereWhere(rows, row => RamWithin(row, first), row => RamWithin(row, second),
               row => RamWithin(row, first) && RamWithin(row, second));
  }

  /** The order of two chained calls does not matter. */
  lemma FilterCommutes(rows: seq<Row>, first: map<string, real>, second: map<string, real>)
    ensures RamSelection(RamSelection(rows, first), second) == RamSelection(RamSelection(rows, second), first)
  {
    FilterChained(rows, first, second);
    FilterChained(rows, second, first);
    WhereSame(rows, row => RamWithin(row, first) && RamWithin(row, second),
              row => RamWithin(row, second) && RamWithin(row, first));
  }

  /** Keyword arguments other than `ram_min` and `ram_max` make no difference. */
  lemma OtherKeysIgnored(rows: seq<Row>, kwargs: map<string, real>, other: map<string, real>)
    requires ("ram_max" in kwargs <==> "ram_max" in other) && ("ram_min" in kwargs <==> "ram_min" in other)
    requires "ram_max" in kwargs ==> kwargs["ram_max"] == other["ram_max"]
    requires "ram_min" in kwargs ==> kwargs["ram_min"] == other["ram_min"]
    ensures RamSelection(rows, kwargs) == RamSelection(rows, other)
  {
    WhereSame(rows, row => RamWithin(row, kwargs), row => RamWithin(row, other));
  }

  /** A ranked table stays ranked under the filter. */
  lemma FilterKeepsRanking(rows: seq<Row>, kwargs: map<string, real>)
    requires Ranked(rows)
    ensures Ranked(RamSelection(rows, kwargs))
  {
    SubsequenceRanked(RamSelection(rows, kwargs), rows);
  }

  lemma {:induction false} SubsequenceRanked(a: seq<Row>, b: seq<Row>)
    requires SubsequenceOf(a, b) && Ranked(b)
    ensures Ranked(a)
    decreases |b|
  {
    if a != [] {
      assert Ranked(b[1..]) by {
        assert forall j :: 0 <= j < |b[1..]| ==> b[1..][j] == b[j + 1];
      }
      if a[0] == b[0] && SubsequenceOf(a[1..], b[1..]) {
        SubsequenceRanked(a[1..], b[1..]);
        SubsequenceMembers(a[1..], b[1..]);
        forall i, j | 0 <= i < j < |a|
          ensures Precedes(a[i].value, a[j].value)
        {
          assert a[j] == a[1..][j - 1];
          if i == 0 {
            assert a[j] in b[1..];
            var k :| 0 <= k < |b[1..]| && b[1..][k] == a[j];
            assert b[k + 1] == a[j];
          } else {
            assert a[i] == a[1..][i - 1];
          }
        }
      } else {
        SubsequenceRanked(a, b[1..]);
      }
    }
  }

  lemma {:induction false} SubsequenceMembers(a: seq<Row>, b: seq<Row>)
    requires SubsequenceOf(a, b)
    ensures forall x :: x in a ==> x in b
    decreases |b|
  {
    if a != [] {
      if a[0] == b[0] && SubsequenceOf(a[1..], b[1..]) {
        SubsequenceMembers(a[1..], b[1..]);
        assert a == [a[0]] + a[1..];
      } else {
        SubsequenceMembers(a, b[1..]);
      }
    }
  }

  /** The regression matrix: one feature row per table row. */
  function FeatureMatrix(rows: seq<Row>): seq<Features> {
    seq(|rows|, i requires 0 <= i < |rows| => FeaturesOf(rows[i]))
  }

  function Prices(rows: seq<Row>): seq<real> {
    seq(|rows|, i requires 0 <= i < |rows| => rows[i].price)
  }

  /**
   * The table before sorting: the assembled rows, repaired, each with the
   * valuation fitted on the pre-repair feature rows and the prices. An empty
   * feed leaves the regression matrix empty, and the fit raises.
   */
  function Table(servers: seq<Server>, valuate: Valuate): (r: Result<seq<Row>>)
    ensures r.Err? <==> AssembledRows(servers).Err? || servers == []
    ensures AssembledRows(servers).Err? ==> r.error == AssembledRows(servers).error
    ensures servers == [] ==> r == Err(LinAlgError)
  {
    match AssembledRows(servers)
    case Err(e) => Err(e)
    case Ok(rows) =>
      if rows == [] then Err(LinAlgError) else
      var repaired := Repaired(rows);
      var features, prices := FeatureMatrix(rows), Prices(rows);
      Ok(seq(|rows|, i requires 0 <= i < |rows| => ValuedRow(repaired[i], valuate(features, prices, repaired[i]))))
  }

  /**
   * The unsorted table has a row for every server, built from that server,
   * with its zero score repaired and no score left at 0.
   */
  lemma TableRows(servers: seq<Server>, valuate: Valuate)
    requires Table(servers, valuate).Ok?
    ensures var t := Table(servers, valuate).value;
      && |t| == |servers|
      && forall i :: 0 <= i < |t| ==>
           AssembleRow(servers[i]).Ok? &&
           var built := AssembleRow(servers[i]).value;
           && t[i].(cpuScore := built.cpuScore, expectedPrice := built.expectedPrice, value := built.value) == built
           && t[i].cpuScore != Num(0.0)
           && (built.cpuScore != Num(0.0) ==> t[i].cpuScore == built.cpuScore)
  {
    AssembledRowsIff(servers);
    var rows := AssembledRows(servers).value;
    var t := Table(servers, valuate).value;
    NoZeroAfterRepair(rows);
    RepairTouchesOnlyZeroScores(rows);
    forall i | 0 <= i < |t|
      ensures t[i].(cpuScore := rows[i].cpuScore, expectedPrice := rows[i].expectedPrice, value := rows[i].value) == rows[i]
      ensures t[i].cpuScore == Repaired(rows)[i].cpuScore
    {
      var repaired := Repaired(rows)[i];
      assert t[i] == ValuedRow(repaired, valuate(FeatureMatrix(rows), Prices(rows), repaired));
    }
  }

  class HetznerAuction {
    /** The table, sorted by value after construction and narrowed by the filters. */
    var data: seq<Row>

    constructor FromRows(rows: seq<Row>)
      ensures data == rows
    {
      data := rows;
    }

    /**
     * `HetznerAuction()` on a fetched feed: the exception of the first
     * server that cannot be read, LinAlgError from the fit when the feed is
     * empty, or an object whose table is the repaired and valued rows, ranked
     * by value.
     */
    static method New(servers: seq<Server>, valuate: Valuate) returns (r: Result<HetznerAuction>)
      ensures r.Err? <==> AssembledRows(servers).Err? || servers == []
      ensures r.Err? ==> Table(servers, valuate).Err? && r.error == Table(servers, valuate).error
      ensures r.Ok? ==> fresh(r.value)
      ensures r.Ok? ==> Ranked(r.value.data) && multiset(r.value.data) == multiset(Table(servers, valuate).value)
    {
      var assembled := AssembleRows(servers);
      if assembled.Err? {
        return Err(assembled.error);
      }
      var rows := assembled.value;
      if rows == [] {
        return Err(LinAlgError);
      }
      var repaired, features, prices := RepairScores(rows);
      assert features == FeatureMatrix(rows) && prices == Prices(rows);
      var valued := ApplyValuation(repaired, features, prices, valuate);
      assert valued == Table(servers, valuate).value;
      var sorted := SortByValue(valued);
      var auction := new HetznerAuction.FromRows(sorted);
      r := Ok(auction);
    }

    /** The `data` property. */
    method Data() returns (d: seq<Row>)
      ensures d == data
    {
      d := data;
    }

    /** The `data` setter: replaces the table as given. */
    method SetData(d: seq<Row>)
      modifies this
      ensures data == d
    {
      data := d;
    }

    /**
     * `filter_ram(**kwargs)`: the `ram_max` mask, then the `ram_min` mask,
     * written back to `data`; returns the object itself.
     */
    method FilterRam(kwargs: map<string, real>) returns (self: HetznerAuction)
      modifies this
      ensures data == RamSelection(old(data), kwargs)
      ensures self == this
    {
      var df := Data();
      ghost var rows := df;
      var hasMax, hasMin := "ram_max" in kwargs, "ram_min" in kwargs;
      var max := if hasMax then kwargs["ram_max"] else 0.0;
      var min := if hasMin then kwargs["ram_min"] else 0.0;
      if hasMax {
        df := Where(df, (row: Row) => row.ram as real <= max);
      }
      if hasMin {
        df := Where(df, (row: Row) => row.ram as real >= min);
      }
      FilterSteps(rows, kwargs, df);
      SetData(df);
      self := this;
    }

    /** `filter(*args, **kwargs)`: forwards the keyword arguments to `filter_ram`. */
    method Filter(kwargs: map<string, real>) returns (self: HetznerAuction)
      modifies this
      ensures data == RamSelection(old(data), kwargs)
      ensures self == this
    {
      self := FilterRam(kwargs);
    }
  }

  /** The two masks of `filter_ram`, each applied when its key is given, select `RamSelection`. */
  lemma FilterSteps(rows: seq<Row>, kwargs: map<string, real>, df: seq<Row>)
    requires var max := if "ram_max" in kwargs then kwargs["ram_max"] else 0.0;
      var min := if "ram_min" in kwargs then kwargs["ram_min"] else 0.0;
      var afterMax := if "ram_max" in kwargs then Where(rows, (row: Row) => row.ram as real <= max) else rows;
      df == if "ram_min" in kwargs then Where(afterMax, (row: Row) => row.ram as real >= min) else afterMax
    ensures df == RamSelection(rows, kwargs)
  {
    var max := if "ram_max" in kwargs then kwargs["ram_max"] else 0.0;
    var min := if "ram_min" in kwargs then kwargs["ram_min"] else 0.0;
    var atMost: Row -> bool := (row: Row) => row.ram as real <= max;
    var atLeast: Row -> bool := (row: Row) => row.ram as real >= min;
    var within: Row -> bool := row => RamWithin(row, kwargs);
    if "ram_max" in kwargs && "ram_min" in kwargs {
      WhereWhere(rows, atMost, atLeast, within);
    } else if "ram_max" in kwargs {
      WhereSame(rows, atMost, within);
    } else if "ram_min" in kwargs {
      WhereSame(rows, atLeast, within);
    } else {
      WhereAll(rows, within);
    }
  }
}
