/**
 * The rows of the auction table as the constructor of `HetznerAuction`
 * builds them: one row per server of the feed, then the repair of zero
 * cpu scores, then the valuation of every row.
 */
module Listings {
  import opened Results
  import opened Text
  import opened Disks

  /** A float column value: a number or pandas' missing value (NaN). */
  datatype Float = Num(x: real) | NaN

  /** `x > 0` on a float column: false for NaN. */
  predicate Positive(f: Float) {
    f.Num? && f.x > 0.0
  }

  /** The `ram` field of the feed is a JSON number or a string. */
  datatype RamField = RamNumber(x: real) | RamText(s: string)

  /** One entry of the feed's `server` list, with the fields the constructor reads. */
  datatype Server = Server(
    cpuBenchmark: real,
    price: real,
    isEcc: bool,
    ram: RamField,
    description: seq<string>,
    cpu: string)

  /** One row of the table, with the columns of the source's data frame. */
  datatype Row = Row(
    value: Float,
    price: real,
    expectedPrice: Float,
    ram: int,
    isEcc: int,
    ssd: real,
    hdd: real,
    cpu: string,
    cpuScore: Float,
    description: string)

  /** One row of the regression matrix: `[cpu_score, is_ecc, ram, hdd, ssd]`. */
  datatype Features = Features(cpuScore: Float, isEcc: int, ram: int, hdd: real, ssd: real)

  /** What the fitted model says about one row. */
  datatype Valuation = Valuation(expectedPrice: Float, value: Float)

  /**
   * The fitted model: from the regression matrix, the prices and a row of the
   * repaired table to that row's expected price and value.
   */
  type Valuate = (seq<Features>, seq<real>, Row) -> Valuation

  /** `int(server["ram"])`: a number is truncated toward zero, a string must be an integer literal. */
  function RamValue(ram: RamField): Result<int> {
    match ram
    case RamNumber(x) => Ok(Truncate(x))
    case RamText(s) =>
      match ParseInt(s)
      case None => Err(ValueError)
      case Some(n) => Ok(n)
  }

  /**
   * The row appended for one server: `ram` is read before the description,
   * so its error wins; `value` and `expected_price` are still missing.
   */
  function AssembleRow(server: Server): Result<Row> {
    match RamValue(server.ram)
    case Err(e) => Err(e)
    case Ok(ram) =>
      match DescriptionTotals(server.description)
      case Err(e) => Err(e)
      case Ok(t) =>
        Ok(Row(NaN, server.price, NaN, ram, if server.isEcc then 1 else 0,
               t.ssd, t.hdd, server.cpu, Num(server.cpuBenchmark), Join(", ", server.description)))
  }

  /** The table after the append loop, or the exception of the first server that raises. */
  function AssembledRows(servers: seq<Server>): Result<seq<Row>> {
    if servers == [] then Ok([])
    else
      match AssembledRows(servers[..|servers| - 1])
      case Err(e) => Err(e)
      case Ok(rows) =>
        match AssembleRow(servers[|servers| - 1])
        case Err(e) => Err(e)
        case Ok(row) => Ok(rows + [row])
  }

  /** The loop body for one server: read `ram`, sum the description, build the row. */
  method BuildRow(server: Server) returns (r: Result<Row>)
    ensures r == AssembleRow(server)
  {
    var ram := RamValue(server.ram);
    if ram.Err? {
      return Err(ram.error);
    }
    var totals := SumDescription(server.description);
    if totals.Err? {
      return Err(totals.error);
    }
    var ecc := if server.isEcc then 1 else 0;
    var description := Join(", ", server.description);
    r := Ok(Row(NaN, server.price, NaN, ram.value, ecc, totals.value.ssd, totals.value.hdd,
                server.cpu, Num(server.cpuBenchmark), description));
  }

  /** The source's loop over `data["server"]`, appending one row at a time. */
  method AssembleRows(servers: seq<Server>) returns (r: Result<seq<Row>>)
    ensures r == AssembledRows(servers)
  {
    var rows := [];
    var n := 0;
    while n < |servers|
      invariant 0 <= n <= |servers|
      invariant AssembledRows(servers[..n]) == Ok(rows)
    {
      var row := BuildRow(servers[n]);
      assert servers[..n + 1][..n] == servers[..n];
      if row.Err? {
        AssembleAbort(servers, n);
        return Err(row.error);
      }
      rows := rows + [row.value];
      n := n + 1;
    }
    assert servers[..n] == servers;
    r := Ok(rows);
  }

  /** Once one prefix of the servers has raised, so has every longer one, with the same error. */
  lemma {:induction false} AssembleErrorPersists(servers: seq<Server>, k: nat)
    requires k <= |servers| && AssembledRows(servers[..k]).Err?
    ensures AssembledRows(servers) == AssembledRows(servers[..k])
    decreases |servers| - k
  {
    if k < |servers| {
      assert servers[..k + 1][..k] == servers[..k];
      AssembleErrorPersists(servers, k + 1);
    } else {
      assert servers[..k] == servers;
    }
  }

  lemma AssembleAbort(servers: seq<Server>, n: nat)
    requires n < |servers| && AssembledRows(servers[..n]).Ok? && AssembleRow(servers[n]).Err?
    ensures AssembledRows(servers) == Err(AssembleRow(servers[n]).error)
  {
    assert servers[..n + 1][..n] == servers[..n];
    AssembleErrorPersists(servers, n + 1);
  }

  /**
   * The table has one row per server, in feed order, exactly when every
   * server's row can be built; otherwise the constructor raises.
   */
  lemma {:induction false} AssembledRowsIff(servers: seq<Server>)
    ensures AssembledRows(servers).Ok? <==> forall i :: 0 <= i < |servers| ==> AssembleRow(servers[i]).Ok?
    ensures AssembledRows(servers).Ok? ==>
              |AssembledRows(servers).value| == |servers|
              && forall i :: 0 <= i < |servers| ==> AssembledRows(servers).value[i] == AssembleRow(servers[i]).value
  {
    if servers != [] {
      var init := servers[..|servers| - 1];
      var last := servers[|servers| - 1];
      AssembledRowsIff(init);
      assert forall i :: 0 <= i < |init| ==> init[i] == servers[i];
      var r := AssembledRows(init);
      if r.Ok? && AssembleRow(last).Ok? {
        var rows := r.value + [AssembleRow(last).value];
        assert AssembledRows(servers) == Ok(rows);
        assert forall i :: 0 <= i < |init| ==> rows[i] == r.value[i];
      }
    }
  }

  /**
   * What a built row holds: ECC as 1 or 0, the integer ram, the raw score,
   * the description's disk totals, and no valuation yet.
   */
  lemma RowColumns(server: Server)
    requires AssembleRow(server).Ok?
    ensures var row := AssembleRow(server).value;
      && (row.isEcc == 1 <==> server.isEcc) && (row.isEcc == 0 <==> !server.isEcc)
      && RamValue(server.ram) == Ok(row.ram)
      && DescriptionTotals(server.description) == Ok(Totals(row.hdd, row.ssd))
      && row.cpuScore == Num(server.cpuBenchmark) && row.cpu == server.cpu && row.price == server.price
      && row.value.NaN? && row.expectedPrice.NaN?
  {
  }

  /** A server raises exactly when its `ram` or one of its description lines does, `ram` first. */
  lemma RowErrors(server: Server)
    ensures AssembleRow(server).Err? <==>
              RamValue(server.ram).Err? || exists i :: 0 <= i < |server.description| && Contribution(server.description[i]).Err?
    ensures RamValue(server.ram).Err? ==> AssembleRow(server) == Err(RamValue(server.ram).error)
  {
    TotalsOkIff(server.description);
  }

  /** `int()` on a ram string reads back a non-negative integer literal; on a number it truncates. */
  lemma RamRoundTrip(n: nat, x: real)
    ensures RamValue(RamText(NatToDigits(n))) == Ok(n)
    ensures RamValue(RamNumber(x)).Ok? && 0.0 <= x ==> RamValue(RamNumber(x)).value as real <= x < RamValue(RamNumber(x)).value as real + 1.0
  {
    IntRoundTrip(n);
  }

  /** The scores `> 0` of the rows with the given cpu. */
  function PositiveScores(rows: seq<Row>, cpu: string): set<real> {
    set i | 0 <= i < |rows| && rows[i].cpu == cpu && Positive(rows[i].cpuScore) :: rows[i].cpuScore.x
  }

  /**
   * The least `cpu_score` above 0 among the rows with this `cpu`, as the
   * repair's `.min()` reads it (src/hetzner.py:68), or nothing when there is none.
   */
  function GroupMin(rows: seq<Row>, cpu: string): (m: Option<real>)
    ensures m.None? <==> PositiveScores(rows, cpu) == {}
    ensures m.Some? ==> m.value in PositiveScores(rows, cpu)
    ensures m.Some? ==> forall y :: y in PositiveScores(rows, cpu) ==> m.value <= y
  {
    if rows == [] then None
    else
      var init := rows[..|rows| - 1];
      var last := rows[|rows| - 1];
      var rest := GroupMin(init, cpu);
      assert PositiveScores(rows, cpu)
        == PositiveScores(init, cpu) + (if last.cpu == cpu && Positive(last.cpuScore) then {last.cpuScore.x} else {}) by {
        assert forall i :: 0 <= i < |init| ==> init[i] == rows[i];
      }
      if last.cpu == cpu && Positive(last.cpuScore) then
        match rest
        case None => Some(last.cpuScore.x)
        case Some(m) => Some(if last.cpuScore.x < m then last.cpuScore.x else m)
      else rest
  }

  /** The score a zero-score row gets: the group minimum, NaN for an empty group. */
  function MinScore(rows: seq<Row>, cpu: string): Float {
    match GroupMin(rows, cpu)
    case None => NaN
    case Some(m) => Num(m)
  }

  /** Row `i` after the repair, computed from the table as assembled. */
  function RepairedRow(rows: seq<Row>, i: nat): (r: Row)
    requires i < |rows|
    ensures rows[i].cpuScore != Num(0.0) ==> r == rows[i]
    ensures rows[i].cpuScore == Num(0.0) ==> r == rows[i].(cpuScore := r.cpuScore)
    ensures rows[i].cpuScore == Num(0.0) && PositiveScores(rows, rows[i].cpu) == {} ==> r.cpuScore.NaN?
    ensures rows[i].cpuScore == Num(0.0) && PositiveScores(rows, rows[i].cpu) != {} ==>
              r.cpuScore.Num? && r.cpuScore.x in PositiveScores(rows, rows[i].cpu)
              && forall y :: y in PositiveScores(rows, rows[i].cpu) ==> r.cpuScore.x <= y
  {
    if rows[i].cpuScore == Num(0.0) then rows[i].(cpuScore := MinScore(rows, rows[i].cpu)) else rows[i]
  }

  /** The whole table after the repair loop. */
  function Repaired(rows: seq<Row>): (r: seq<Row>)
    ensures |r| == |rows|
    ensures forall i :: 0 <= i < |rows| ==> r[i] == RepairedRow(rows, i)
  {
    seq(|rows|, i requires 0 <= i < |rows| => RepairedRow(rows, i))
  }

  /** The regression row appended at each step, from the iteration's copy of the row. */
  function FeaturesOf(row: Row): Features {
    Features(row.cpuScore, row.isEcc, row.ram, row.hdd, row.ssd)
  }

  /**
   * The table part-way through the repair loop: rows before `k` repaired,
   * the rest as assembled.
   */
  function PartlyRepaired(rows: seq<Row>, k: nat): seq<Row>
    requires k <= |rows|
  {
    Repaired(rows)[..k] + rows[k..]
  }

  /** Repairs add no new positive score: a repaired score is the group minimum or NaN. */
  lemma PartlyRepairedScores(rows: seq<Row>, k: nat, cpu: string)
    requires k <= |rows|
    ensures PositiveScores(PartlyRepaired(rows, k), cpu) == PositiveScores(rows, cpu)
  {
    var live := PartlyRepaired(rows, k);
    forall y | y in PositiveScores(live, cpu)
      ensures y in PositiveScores(rows, cpu)
    {
      var i :| 0 <= i < |live| && live[i].cpu == cpu && Positive(live[i].cpuScore) && live[i].cpuScore.x == y;
      if i < k && rows[i].cpuScore == Num(0.0) {
        assert live[i] == RepairedRow(rows, i);
      } else {
        assert live[i] == rows[i];
      }
    }
    forall y | y in PositiveScores(rows, cpu)
      ensures y in PositiveScores(live, cpu)
    {
      var i :| 0 <= i < |rows| && rows[i].cpu == cpu && Positive(rows[i].cpuScore) && rows[i].cpuScore.x == y;
      if i < k {
        assert live[i] == RepairedRow(rows, i) == rows[i];
      } else {
        assert live[i] == rows[i];
      }
    }
  }

  /**
   * The group minimum read from the live table during the loop equals the
   * one of the assembled table, so the in-place updates do not feed back.
   */
  lemma GroupMinStable(rows: seq<Row>, k: nat, cpu: string)
    requires k <= |rows|
    ensures GroupMin(PartlyRepaired(rows, k), cpu) == GroupMin(rows, cpu)
  {
    var live := PartlyRepaired(rows, k);
    PartlyRepairedScores(rows, k, cpu);
    var a, b := GroupMin(live, cpu), GroupMin(rows, cpu);
    if a.Some? && b.Some? {
      assert a.value <= b.value && b.value <= a.value;
    }
  }

  /**
   * The repair loop as written: it tests the iteration's copy of each row for
   * a zero score, takes the minimum from the live table, writes the score in
   * place and appends the copy's features and price to the regression data.
   */
  method RepairScores(rows: seq<Row>) returns (live: seq<Row>, features: seq<Features>, prices: seq<real>)
    ensures live == Repaired(rows)
    ensures |features| == |rows| && |prices| == |rows|
    ensures forall i :: 0 <= i < |rows| ==> features[i] == FeaturesOf(rows[i]) && prices[i] == rows[i].price
  {
    live := rows;
    features := [];
    prices := [];
    for i := 0 to |rows|
      invariant live == PartlyRepaired(rows, i)
      invariant |features| == i && |prices| == i
      invariant forall j :: 0 <= j < i ==> features[j] == FeaturesOf(rows[j]) && prices[j] == rows[j].price
    {
      var row := rows[i];
      ghost var before := live;
      if row.cpuScore == Num(0.0) {
        var score := MinScore(live, row.cpu);
        live := live[i := live[i].(cpuScore := score)];
      }
      RepairStep(rows, i, before, live);
      AppendColumns(rows, i, features, prices);
      features := features + [FeaturesOf(row)];
      prices := prices + [row.price];
    }
    assert live == Repaired(rows);
  }

  /** One step of the repair loop takes the table from `i` repaired rows to `i + 1`. */
  lemma RepairStep(rows: seq<Row>, i: nat, live: seq<Row>, live': seq<Row>)
    requires i < |rows| && live == PartlyRepaired(rows, i)
    requires live' == if rows[i].cpuScore == Num(0.0)
                      then live[i := live[i].(cpuScore := MinScore(live, rows[i].cpu))]
                      else live
    ensures live' == PartlyRepaired(rows, i + 1)
  {
    GroupMinStable(rows, i, rows[i].cpu);
    assert |live'| == |rows|;
    forall j | 0 <= j < |rows|
      ensures live'[j] == PartlyRepaired(rows, i + 1)[j]
    {
    }
  }

  /** One step of the regression data: the copy of row `i` goes last. */
  lemma AppendColumns(rows: seq<Row>, i: nat, features: seq<Features>, prices: seq<real>)
    requires i < |rows| && |features| == i && |prices| == i
    requires forall j :: 0 <= j < i ==> features[j] == FeaturesOf(rows[j]) && prices[j] == rows[j].price
    ensures var f, p := features + [FeaturesOf(rows[i])], prices + [rows[i].price];
      forall j :: 0 <= j < i + 1 ==> f[j] == FeaturesOf(rows[j]) && p[j] == rows[j].price
  {
  }

  /** After the repair no score is 0: each is a positive group minimum, NaN, or was nonzero already. */
  lemma NoZeroAfterRepair(rows: seq<Row>)
    ensures forall i :: 0 <= i < |rows| ==> Repaired(rows)[i].cpuScore != Num(0.0)
  {
    forall i | 0 <= i < |rows|
      ensures Repaired(rows)[i].cpuScore != Num(0.0)
    {
      var r := RepairedRow(rows, i);
      if rows[i].cpuScore == Num(0.0) && PositiveScores(rows, rows[i].cpu) != {} {
        var y := r.cpuScore.x;
        assert y in PositiveScores(rows, rows[i].cpu);
        assert y > 0.0;
      }
    }
  }

  /** Repairing a repaired table changes nothing. */
  lemma RepairIdempotent(rows: seq<Row>)
    ensures Repaired(Repaired(rows)) == Repaired(rows)
  {
    NoZeroAfterRepair(rows);
    var once := Repaired(rows);
    forall i | 0 <= i < |once|
      ensures Repaired(once)[i] == once[i]
    {
      assert RepairedRow(once, i) == once[i];
    }
  }

  /** The repair only ever rewrites `cpu_score`, and only of rows whose score was 0. */
  lemma RepairTouchesOnlyZeroScores(rows: seq<Row>)
    ensures forall i :: 0 <= i < |rows| ==> Repaired(rows)[i].(cpuScore := rows[i].cpuScore) == rows[i]
    ensures forall i :: 0 <= i < |rows| && Repaired(rows)[i] != rows[i] ==> rows[i].cpuScore == Num(0.0)
  {
  }

  /** A row with its fitted expected price and value. */
  function ValuedRow(row: Row, v: Valuation): (r: Row)
    ensures r.(expectedPrice := row.expectedPrice, value := row.value) == row
    ensures r.expectedPrice == v.expectedPrice && r.value == v.value
  {
    row.(expectedPrice := v.expectedPrice, value := v.value)
  }

  /**
   * The valuation loop: every row of the repaired table gets the expected
   * price and value the fitted model gives it.
   */
  method ApplyValuation(rows: seq<Row>, features: seq<Features>, prices: seq<real>, valuate: Valuate)
    returns (valued: seq<Row>)
    ensures |valued| == |rows|
    ensures forall i :: 0 <= i < |rows| ==> valued[i] == ValuedRow(rows[i], valuate(features, prices, rows[i]))
  {
    valued := rows;
    for i := 0 to |rows|
      invariant |valued| == |rows|
      invariant forall j :: 0 <= j < i ==> valued[j] == ValuedRow(rows[j], valuate(features, prices, rows[j]))
      invariant forall j :: i <= j < |rows| ==> valued[j] == rows[j]
    {
      var v := valuate(features, prices, valued[i]);
      valued := valued[i := ValuedRow(valued[i], v)];
    }
  }
}
