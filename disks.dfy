/**
 * Parsing of the free-text disk lines of one auction listing
 * (`HetznerAuction.__init__`, the loop over `server["description"]`).
 *
 * A line is split on whitespace; its second token says whether it is an
 * HDD line, an SSD line or neither. For a disk line the quantity is the
 * first token without its last character, and the capacity comes from a
 * scan over all tokens: every `GB` or `TB` marker overwrites the magnitude
 * with the number in the token before it, and a `TB` marker switches the
 * multiplier to 1024 for the rest of the line.
 */
module Disks {
  import opened Results
  import opened Text

  datatype Kind = HDD | SSD | Other

  /** What one description line adds to a listing: its kind and its size in GB. */
  datatype Disk = Disk(kind: Kind, size: real)

  /** The running `hdd_size` and `ssd_size` of a listing. */
  datatype Totals = Totals(hdd: real, ssd: real) {
    function Plus(d: Disk): Totals {
      match d.kind
      case HDD => Totals(hdd + d.size, ssd)
      case SSD => Totals(hdd, ssd + d.size)
      case Other => this
    }
  }

  predicate IsMarker(t: string) { t == "GB" || t == "TB" }

  /** `data[i - 1]` in Python: at `i == 0` this is the last token. */
  function Prev(tokens: seq<string>, i: nat): string
    requires i < |tokens|
  {
    if i == 0 then tokens[|tokens| - 1] else tokens[i - 1]
  }

  /** `float(t.replace(",", "."))`: a magnitude with either decimal separator. */
  function Magnitude(t: string): Option<real> {
    ParseFloat(ReplaceChar(t, ',', '.'))
  }

  /** Position of the last `GB`/`TB` marker among the tokens. */
  function LastMarker(tokens: seq<string>): (r: Option<nat>)
    ensures r.Some? ==> r.value < |tokens| && IsMarker(tokens[r.value])
    ensures r.Some? ==> forall j :: r.value < j < |tokens| ==> !IsMarker(tokens[j])
    ensures r.None? ==> forall j :: 0 <= j < |tokens| ==> !IsMarker(tokens[j])
  {
    if tokens == [] then None
    else if IsMarker(tokens[|tokens| - 1]) then Some(|tokens| - 1)
    else LastMarker(tokens[..|tokens| - 1])
  }

  /** The multiplier in force after the scan: 1024 once any `TB` marker was seen. */
  function Multiplier(tokens: seq<string>): real {
    if "TB" in tokens then 1024.0 else 1.0
  }

  /** A magnitude converted to GB: `modifier * space` in the source. */
  function Gigabytes(multiplier: real, magnitude: real): real {
    multiplier * magnitude
  }

  /** Every marker among the first `n` tokens follows a token `float()` accepts. */
  predicate MagnitudesParse(tokens: seq<string>, n: nat)
    requires n <= |tokens|
  {
    n == 0
    || (MagnitudesParse(tokens, n - 1)
        && (IsMarker(tokens[n - 1]) ==> Magnitude(Prev(tokens, n - 1)).Some?))
  }

  /**
   * The capacity in GB that the token scan of a disk line arrives at
   * (`modifier * space`): the magnitude before the LAST marker, times 1024
   * if ANY marker is `TB`; 0 without a marker; ValueError if some marker
   * follows a token that is not a number.
   */
  function Capacity(tokens: seq<string>): Result<real> {
    if !MagnitudesParse(tokens, |tokens|) then Err(ValueError)
    else match LastMarker(tokens)
      case None => Ok(0.0)
      case Some(i) =>
        match Magnitude(Prev(tokens, i))
        case None => Err(ValueError)
        case Some(x) => Ok(Gigabytes(Multiplier(tokens), x))
  }

  /** The scan itself, token by token, as the source's inner loop does it. */
  method ScanCapacity(tokens: seq<string>) returns (r: Result<real>)
    ensures r == Capacity(tokens)
  {
    var modifier := 1.0;
    var space := 0.0;
    var i := 0;
    while i < |tokens|
      invariant 0 <= i <= |tokens|
      invariant Scanned(tokens, i, modifier, space)
    {
      var val := tokens[i];
      if IsMarker(val) {
        var m := Magnitude(Prev(tokens, i));
        if m.None? {
          ScanRaises(tokens, i);
          return Err(ValueError);
        }
        ghost var before, spaceBefore := modifier, space;
        if val == "TB" {
          modifier := 1024.0;
        }
        space := m.value;
        ScanMarker(tokens, i, before, spaceBefore, modifier, space);
      } else {
        ScanPlain(tokens, i, modifier, space);
      }
      i := i + 1;
    }
    ScanDone(tokens, modifier, space);
    r := Ok(Gigabytes(modifier, space));
  }

  /**
   * The state of the scan after the first `i` tokens: the multiplier and the
   * magnitude of the last marker seen so far, no bad magnitude yet.
   */
  ghost predicate Scanned(tokens: seq<string>, i: nat, modifier: real, space: real)
    requires i <= |tokens|
  {
    && modifier == Multiplier(tokens[..i])
    && MagnitudesParse(tokens, i)
    && match LastMarker(tokens[..i])
       case None => space == 0.0
       case Some(j) => Magnitude(Prev(tokens, j)) == Some(space)
  }

  lemma ScanPlain(tokens: seq<string>, i: nat, modifier: real, space: real)
    requires i < |tokens| && !IsMarker(tokens[i]) && Scanned(tokens, i, modifier, space)
    ensures Scanned(tokens, i + 1, modifier, space)
  {
    var seen := tokens[..i + 1];
    assert seen == tokens[..i] + [tokens[i]] && seen[..i] == tokens[..i];
    assert LastMarker(seen) == LastMarker(tokens[..i]);
  }

  lemma ScanMarker(tokens: seq<string>, i: nat, modifier: real, space: real, modifier': real, space': real)
    requires i < |tokens| && IsMarker(tokens[i])
    requires Scanned(tokens, i, modifier, space)
    requires modifier' == if tokens[i] == "TB" then 1024.0 else modifier
    requires Magnitude(Prev(tokens, i)) == Some(space')
    ensures Scanned(tokens, i + 1, modifier', space')
  {
    var seen := tokens[..i + 1];
    assert seen == tokens[..i] + [tokens[i]] && seen[..i] == tokens[..i];
    assert LastMarker(seen) == Some(i);
  }

  lemma ScanRaises(tokens: seq<string>, i: nat)
    requires i < |tokens| && IsMarker(tokens[i]) && MagnitudesParse(tokens, i)
    requires Magnitude(Prev(tokens, i)).None?
    ensures Capacity(tokens) == Err(ValueError)
  {
    NoRecovery(tokens, i + 1);
  }

  lemma ScanDone(tokens: seq<string>, modifier: real, space: real)
    requires Scanned(tokens, |tokens|, modifier, space)
    ensures Capacity(tokens) == Ok(Gigabytes(modifier, space))
  {
    assert tokens[..|tokens|] == tokens;
  }

  /** A bad magnitude seen early is never made good by later tokens. */
  lemma {:induction false} NoRecovery(tokens: seq<string>, n: nat)
    requires n <= |tokens| && !MagnitudesParse(tokens, n)
    ensures !MagnitudesParse(tokens, |tokens|)
    decreases |tokens| - n
  {
    if n < |tokens| {
      NoRecovery(tokens, n + 1);
    }
  }

  /** The scan raises exactly when some marker follows a token that is not a number. */
  lemma {:induction false} MagnitudesParseIff(tokens: seq<string>, n: nat)
    requires n <= |tokens|
    ensures MagnitudesParse(tokens, n)
            <==> forall i :: 0 <= i < n && IsMarker(tokens[i]) ==> Magnitude(Prev(tokens, i)).Some?
  {
    if n > 0 {
      MagnitudesParseIff(tokens, n - 1);
    }
  }

  /** The quantity of a disk line: `int(tokens[0][:-1])`, so "2x" gives 2. */
  function Quantity(first: string): Option<int> {
    ParseInt(if first == [] then [] else first[..|first| - 1])
  }

  /**
   * What one description line adds: IndexError with fewer than two tokens,
   * `Other` with nothing added when the second token is neither `HDD` nor
   * `SSD`, otherwise quantity times capacity (ValueError if either does not parse).
   */
  function Contribution(line: string): Result<Disk> {
    var tokens := Split(line);
    if |tokens| < 2 then Err(IndexError)
    else
      var kind := KindOf(tokens[1]);
      if kind == Other then Ok(Disk(Other, 0.0))
      else
        match Quantity(tokens[0])
        case None => Err(ValueError)
        case Some(qty) =>
          match Capacity(tokens)
          case Err(e) => Err(e)
          case Ok(c) => Ok(Disk(kind, Scale(qty, c)))
  }

  /** A disk line's size: quantity times the capacity of one disk. */
  function Scale(qty: int, capacity: real): real {
    qty as real * capacity
  }

  /** The second token decides the kind of a line, compared exactly. */
  function KindOf(t: string): Kind {
    if t == "HDD" then HDD else if t == "SSD" then SSD else Other
  }

  /** One pass of the loop body over a description line: classify it, then parse quantity and capacity. */
  method ParseLine(item: string) returns (r: Result<Disk>)
    ensures r == Contribution(item)
  {
    var data := Split(item);
    if |data| < 2 {
      return Err(IndexError);
    }
    var kind := KindOf(data[1]);
    if kind == Other {
      return Ok(Disk(Other, 0.0));
    }
    var qty := Quantity(data[0]);
    if qty.None? {
      return Err(ValueError);
    }
    var capacity := ScanCapacity(data);
    if capacity.Err? {
      return Err(capacity.error);
    }
    r := Ok(Disk(kind, Scale(qty.value, capacity.value)));
  }

  /** One more line after a run of lines: an earlier error wins, then the line's own. */
  function AddLine(r: Result<Totals>, line: string): Result<Totals> {
    match r
    case Err(e) => Err(e)
    case Ok(t) =>
      match Contribution(line)
      case Err(e) => Err(e)
      case Ok(d) => Ok(t.Plus(d))
  }

  /** The totals of a listing's lines; the first line that raises aborts the listing. */
  function DescriptionTotals(lines: seq<string>): Result<Totals> {
    if lines == [] then Ok(Totals(0.0, 0.0))
    else AddLine(DescriptionTotals(lines[..|lines| - 1]), lines[|lines| - 1])
  }

  /** The source's loop over the description lines, accumulating `hdd_size` and `ssd_size`. */
  method SumDescription(lines: seq<string>) returns (r: Result<Totals>)
    ensures r == DescriptionTotals(lines)
  {
    var hddSize := 0.0;
    var ssdSize := 0.0;
    var n := 0;
    while n < |lines|
      invariant 0 <= n <= |lines|
      invariant DescriptionTotals(lines[..n]) == Ok(Totals(hddSize, ssdSize))
    {
      var item := lines[n];
      var disk := ParseLine(item);
      if disk.Err? {
        AbortAt(lines, n);
        return Err(disk.error);
      }
      ghost var before := Totals(hddSize, ssdSize);
      match disk.value.kind {
        case HDD => hddSize := hddSize + disk.value.size;
        case SSD => ssdSize := ssdSize + disk.value.size;
        case Other =>
      }
      TotalsStep(lines, n, before, disk.value, Totals(hddSize, ssdSize));
      n := n + 1;
    }
    assert lines[..n] == lines;
    r := Ok(Totals(hddSize, ssdSize));
  }

  lemma TotalsStep(lines: seq<string>, n: nat, t: Totals, d: Disk, t': Totals)
    requires n < |lines| && DescriptionTotals(lines[..n]) == Ok(t)
    requires Contribution(lines[n]) == Ok(d) && t' == t.Plus(d)
    ensures DescriptionTotals(lines[..n + 1]) == Ok(t')
  {
    assert lines[..n + 1][..n] == lines[..n];
  }

  /** Once a prefix of the lines has raised, the whole listing raises the same error. */
  lemma {:induction false} ErrorPersists(lines: seq<string>, k: nat)
    requires k <= |lines| && DescriptionTotals(lines[..k]).Err?
    ensures DescriptionTotals(lines) == DescriptionTotals(lines[..k])
    decreases |lines| - k
  {
    if k < |lines| {
      var next := lines[..k + 1];
      assert next[..k] == lines[..k];
      ErrorPersists(lines, k + 1);
    } else {
      assert lines[..k] == lines;
    }
  }

  /** The first line that raises decides the listing's error. */
  lemma AbortAt(lines: seq<string>, n: nat)
    requires n < |lines| && DescriptionTotals(lines[..n]).Ok? && Contribution(lines[n]).Err?
    ensures DescriptionTotals(lines) == Err(Contribution(lines[n]).error)
  {
    assert lines[..n + 1][..n] == lines[..n];
    ErrorPersists(lines, n + 1);
  }

  /** A listing's description parses exactly when every one of its lines does. */
  lemma {:induction false} TotalsOkIff(lines: seq<string>)
    ensures DescriptionTotals(lines).Ok? <==> forall i :: 0 <= i < |lines| ==> Contribution(lines[i]).Ok?
  {
    if lines != [] {
      var init := lines[..|lines| - 1];
      TotalsOkIff(init);
      assert forall i :: 0 <= i < |init| ==> init[i] == lines[i];
    }
  }

  /** Combining the totals of two runs of lines: the first error wins, otherwise sizes add up. */
  function Combine(a: Result<Totals>, b: Result<Totals>): Result<Totals> {
    match a
    case Err(e) => Err(e)
    case Ok(x) =>
      match b
      case Err(e) => Err(e)
      case Ok(y) => Ok(Totals(x.hdd + y.hdd, x.ssd + y.ssd))
  }

  /** Splitting a description in two and combining the parts gives the totals of the whole. */
  lemma {:induction false} TotalsAppend(a: seq<string>, b: seq<string>)
    ensures DescriptionTotals(a + b) == Combine(DescriptionTotals(a), DescriptionTotals(b))
    decreases |b|
  {
    if b == [] {
      assert a + b == a;
    } else {
      var b' := b[..|b| - 1];
      var last := b[|b| - 1];
      assert (a + b)[..|a + b| - 1] == a + b';
      assert (a + b)[|a + b| - 1] == last;
      TotalsAppend(a, b');
      var whole := DescriptionTotals(a + b');
      assert DescriptionTotals(a + b) == AddLine(whole, last);
      assert DescriptionTotals(b) == AddLine(DescriptionTotals(b'), last);
      CombineAddLine(DescriptionTotals(a), DescriptionTotals(b'), last);
    }
  }

  lemma CombineAddLine(x: Result<Totals>, y: Result<Totals>, line: string)
    ensures AddLine(Combine(x, y), line) == Combine(x, AddLine(y, line))
  {
    if x.Ok? && y.Ok? && Contribution(line).Ok? {
      var d := Contribution(line).value;
      var u, v := x.value, y.value;
      match d.kind
      case HDD => assert u.hdd + v.hdd + d.size == u.hdd + (v.hdd + d.size);
      case SSD => assert u.ssd + v.ssd + d.size == u.ssd + (v.ssd + d.size);
      case Other =>
    }
  }

  /** A line whose second token is neither `HDD` nor `SSD` leaves both totals unchanged. */
  lemma OtherLineAddsNothing(lines: seq<string>, line: string)
    requires |Split(line)| >= 2 && Split(line)[1] != "HDD" && Split(line)[1] != "SSD"
    ensures DescriptionTotals(lines + [line]) == DescriptionTotals(lines)
  {
    assert (lines + [line])[..|lines|] == lines;
    assert Contribution(line) == Ok(Disk(Other, 0.0));
  }

  /** With no HDD or SSD line among them, a listing's totals are both 0. */
  lemma {:induction false} NoDiskLinesNoSpace(lines: seq<string>)
    requires forall i :: 0 <= i < |lines| ==> Contribution(lines[i]) == Ok(Disk(Other, 0.0))
    ensures DescriptionTotals(lines) == Ok(Totals(0.0, 0.0))
  {
    if lines != [] {
      var init := lines[..|lines| - 1];
      assert forall i :: 0 <= i < |init| ==> init[i] == lines[i];
      NoDiskLinesNoSpace(init);
    }
  }

  /** A line of fewer than two tokens raises IndexError, and so does the listing once the lines before it parse. */
  lemma ShortLineRaises(lines: seq<string>, n: nat)
    requires n < |lines| && |Split(lines[n])| < 2
    requires forall i :: 0 <= i < n ==> Contribution(lines[i]).Ok?
    ensures DescriptionTotals(lines) == Err(IndexError)
  {
    var init := lines[..n];
    assert forall i :: 0 <= i < |init| ==> init[i] == lines[i];
    TotalsOkIff(init);
    AbortAt(lines, n);
  }

  /** With `k` the last marker and every marker after a number, the capacity is the magnitude before `k`. */
  lemma CapacityAtLast(tokens: seq<string>, k: nat, x: real)
    requires k < |tokens| && IsMarker(tokens[k])
    requires forall j :: k < j < |tokens| ==> !IsMarker(tokens[j])
    requires forall j :: 0 <= j < |tokens| && IsMarker(tokens[j]) ==> Magnitude(Prev(tokens, j)).Some?
    requires Magnitude(Prev(tokens, k)) == Some(x)
    ensures Capacity(tokens) == Ok(Gigabytes(Multiplier(tokens), x))
  {
    MagnitudesParseIff(tokens, |tokens|);
    assert LastMarker(tokens) == Some(k);
  }

  lemma KindWord(kind: string)
    requires KindOf(kind) != Other
    ensures IsWord(kind) && !IsMarker(kind)
  {
    assert kind == "HDD" || kind == "SSD";
  }

  lemma LineAllWords(tokens: seq<string>)
    requires |tokens| >= 4
    requires IsWord(tokens[0]) && KindOf(tokens[1]) != Other && IsWord(tokens[2]) && IsMarker(tokens[3])
    requires forall i :: 4 <= i < |tokens| ==> IsWord(tokens[i])
    ensures forall i :: 0 <= i < |tokens| ==> IsWord(tokens[i])
  {
    KindWord(tokens[1]);
    MarkerWord(tokens[3]);
  }

  lemma MarkerWord(t: string)
    requires IsMarker(t)
    ensures IsWord(t)
  {
    assert t == "GB" || t == "TB";
  }

  /** A disk line's contribution once its quantity and capacity are known. */
  lemma DiskContribution(line: string, n: int, c: real)
    requires |Split(line)| >= 2 && KindOf(Split(line)[1]) != Other
    requires Quantity(Split(line)[0]) == Some(n) && Capacity(Split(line)) == Ok(c)
    ensures Contribution(line) == Ok(Disk(KindOf(Split(line)[1]), Scale(n, c)))
  {
  }

  /**
   * The usual layout `<n><x> <HDD|SSD> <magnitude> <GB|TB> <words...>`: the
   * line adds n times the magnitude, times 1024 for `TB`, to its kind's total.
   */
  lemma DiskLine(tokens: seq<string>, n: int, x: real)
    requires |tokens| >= 4
    requires IsWord(tokens[0]) && !IsMarker(tokens[0]) && Quantity(tokens[0]) == Some(n)
    requires KindOf(tokens[1]) != Other
    requires IsWord(tokens[2]) && !IsMarker(tokens[2]) && Magnitude(tokens[2]) == Some(x)
    requires IsMarker(tokens[3])
    requires forall i :: 4 <= i < |tokens| ==> IsWord(tokens[i]) && !IsMarker(tokens[i])
    ensures Contribution(Join(" ", tokens)).Ok?
    ensures Contribution(Join(" ", tokens)).value
            == Disk(KindOf(tokens[1]), Scale(n, Gigabytes(if tokens[3] == "TB" then 1024.0 else 1.0, x)))
  {
    LineWords(tokens);
    LineTokens(tokens);
    CapacityAtLast(tokens, 3, x);
    DiskContribution(Join(" ", tokens), n, Gigabytes(Multiplier(tokens), x));
  }

  /** The one marker of a line in the usual layout is its fourth token. */
  lemma LineTokens(tokens: seq<string>)
    requires |tokens| >= 4
    requires !IsMarker(tokens[0]) && KindOf(tokens[1]) != Other
    requires !IsMarker(tokens[2]) && IsMarker(tokens[3])
    requires forall i :: 4 <= i < |tokens| ==> !IsMarker(tokens[i])
    ensures forall j :: 0 <= j < |tokens| && IsMarker(tokens[j]) ==> j == 3
    ensures ("TB" in tokens) == (tokens[3] == "TB")
  {
    KindWord(tokens[1]);
    if tokens[3] != "TB" {
      assert forall j :: 0 <= j < |tokens| ==> tokens[j] != "TB";
    }
  }

  /** A line in the usual layout splits back into its tokens. */
  lemma LineWords(tokens: seq<string>)
    requires |tokens| >= 4
    requires IsWord(tokens[0]) && KindOf(tokens[1]) != Other && IsWord(tokens[2]) && IsMarker(tokens[3])
    requires forall i :: 4 <= i < |tokens| ==> IsWord(tokens[i])
    ensures Split(Join(" ", tokens)) == tokens
  {
    LineAllWords(tokens);
    SplitJoin(tokens);
  }

  /**
   * Only the LAST marker's magnitude counts, while a `TB` marker anywhere
   * before it keeps the 1024 multiplier even when the last marker is `GB`.
   */
  lemma StickyTerabytes(tokens: seq<string>, j: nat, k: nat, x: real)
    requires j < k < |tokens| && tokens[j] == "TB" && IsMarker(tokens[k])
    requires forall i :: k < i < |tokens| ==> !IsMarker(tokens[i])
    requires forall i :: 0 <= i < |tokens| && IsMarker(tokens[i]) ==> Magnitude(Prev(tokens, i)).Some?
    requires Magnitude(Prev(tokens, k)) == Some(x)
    ensures Capacity(tokens) == Ok(Gigabytes(1024.0, x))
  {
    CapacityAtLast(tokens, k, x);
    assert "TB" in tokens;
  }

  /** The quantity token "<n><x>" gives n, whatever the final character. */
  lemma QuantityToken(n: nat, unitLetter: char)
    ensures Quantity(NatToDigits(n) + [unitLetter]) == Some(n)
  {
    var t := NatToDigits(n) + [unitLetter];
    assert t[..|t| - 1] == NatToDigits(n);
    IntRoundTrip(n);
  }

  /** Magnitudes written with a decimal comma read as the same decimal number with a point. */
  lemma CommaMagnitude(a: string, f: string)
    requires AllDigits(a) && AllDigits(f) && a != []
    ensures Magnitude(a + "," + f) == Some(DecimalNumber(DigitsAfter(DigitsValue(a), f), |f|))
    ensures Magnitude(a) == Some(DigitsValue(a) as real)
  {
    ReplaceAppend(a + ",", f, ',', '.');
    ReplaceAppend(a, ",", ',', '.');
    ReplaceDigits(a);
    ReplaceDigits(f);
    assert ReplaceChar(",", ',', '.') == ".";
    DecimalValue(a, f);
    WholeValue(a);
  }

  /** A line as the feed writes it: two 480 GB SSDs. */
  lemma ExampleSsdLine()
    ensures Contribution("2x SSD 480 GB") == Ok(Disk(SSD, 960.0))
  {
    var tokens := ExampleSsdTokens();
    DiskLine(tokens, 2, 480.0);
  }

  lemma ExampleSsdTokens() returns (tokens: seq<string>)
    ensures Join(" ", tokens) == "2x SSD 480 GB"
    ensures |tokens| == 4 && tokens[1] == "SSD" && tokens[3] == "GB"
    ensures IsWord(tokens[0]) && !IsMarker(tokens[0]) && Quantity(tokens[0]) == Some(2)
    ensures IsWord(tokens[2]) && !IsMarker(tokens[2]) && Magnitude(tokens[2]) == Some(480.0)
  {
    tokens := ["2x", "SSD", "480", "GB"];
    QuantityToken(2, 'x');
    assert NatToDigits(2) + ['x'] == "2x";
    CommaMagnitude("480", "");
    assert DigitsValue("480") == 480;
  }

  /** A line with a decimal comma and a TB marker followed by another word: four 2.5 TB HDDs. */
  lemma ExampleHddLine()
    ensures Contribution("4x HDD 2,5 TB SATA") == Ok(Disk(HDD, 10240.0))
  {
    var tokens := ExampleHddTokens();
    DiskLine(tokens, 4, 2.5);
  }

  lemma ExampleHddTokens() returns (tokens: seq<string>)
    ensures Join(" ", tokens) == "4x HDD 2,5 TB SATA"
    ensures |tokens| == 5 && tokens[1] == "HDD" && tokens[3] == "TB"
    ensures IsWord(tokens[0]) && !IsMarker(tokens[0]) && Quantity(tokens[0]) == Some(4)
    ensures IsWord(tokens[2]) && !IsMarker(tokens[2]) && Magnitude(tokens[2]) == Some(2.5)
    ensures IsWord(tokens[4]) && !IsMarker(tokens[4])
  {
    tokens := ["4x", "HDD", "2,5", "TB", "SATA"];
    ExampleHddJoin(tokens);
    ExampleHddNumbers();
  }

  lemma ExampleHddJoin(tokens: seq<string>)
    requires tokens == ["4x", "HDD", "2,5", "TB", "SATA"]
    ensures Join(" ", tokens) == "4x HDD 2,5 TB SATA"
  {
    assert tokens[4..] == ["SATA"] && tokens[3..][1..] == tokens[4..];
    assert Join(" ", tokens[3..]) == "TB SATA";
    assert tokens[2..][1..] == tokens[3..];
    assert Join(" ", tokens[2..]) == "2,5 TB SATA";
    assert tokens[1..][1..] == tokens[2..];
    assert Join(" ", tokens[1..]) == "HDD 2,5 TB SATA";
  }

  lemma ExampleHddNumbers()
    ensures Quantity("4x") == Some(4)
    ensures Magnitude("2,5") == Some(2.5)
  {
    QuantityToken(4, 'x');
    assert NatToDigits(4) + ['x'] == "4x";
    CommaMagnitude("2", "5");
    assert DigitsAfter(2, "5") == 25;
    assert DigitsValue("2") == 2;
    assert "2" + "," + "5" == "2,5";
  }
}
