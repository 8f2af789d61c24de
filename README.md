# Hetzner server auction table, modelled in Dafny

This project models the core of `HetznerAuction` in `src/hetzner.py`. The class
reads the list of servers from Hetzner's server auction feed and builds a table
with one row per server. It parses each server's free-text disk description
into SSD and HDD totals. It repairs zero CPU scores from other servers with the
same CPU. It ranks the rows by a fitted value, highest first, and lets the
caller narrow the table by RAM.

Modules, one file each:

- `Results` (`results.dfy`): `Option` and `Result`. The Python exceptions the
  constructor can raise are modelled as `IndexError`, `ValueError` and
  `LinAlgError`. `LinAlgError` is what `np.linalg.lstsq` raises when an empty
  feed leaves the regression matrix empty and one-dimensional
  (`src/hetzner.py:73-75`).
- `Text` (`text.dfy`): the Python string and number builtins the parser relies
  on. These are `str.split()`, `str.join`, `str.replace`, `int()` and `float()`
  on text, and `int()` on a number.
- `Disks` (`disks.dfy`): the description parser at `src/hetzner.py:27-49`. This
  covers the token scan with its `modifier`/`space` state, one line's
  contribution, and the per-listing totals.
- `Listings` (`listings.dfy`): row assembly (`src/hetzner.py:20-61`), the
  in-place cpu-score repair loop (`src/hetzner.py:64-71`) and the valuation loop
  (`src/hetzner.py:79-82`).
- `Ranking` (`ranking.dfy`): `sort_values("value", ascending=False)`. It is
  descending, and missing values go last.
- `Auction` (`auction.dfy`): the class `HetznerAuction`. It has a `data` field
  that the methods reassign, the constructor `New`, the `data` property and
  setter, and `filter`/`filter_ram`.

Both `filter` and `filter_ram` overwrite `data` and return the object itself.

The imperative parts of the source are methods with loops. Each is proved equal
to a specification function:

- `ScanCapacity`, `SumDescription`, `AssembleRows` and `ApplyValuation` each
  follow a loop in the source.
- `RepairScores` also follows a loop. It reads the live table for the group
  minimum, and reads the iteration copy for the zero test and for the
  regression row.

Lemmas state the properties of those specification functions.

Numbers are exact reals. pandas' missing value is the `NaN` case of `Float`.

The HTTP fetch is left out, so `HetznerAuction.New` takes the already-parsed
server list. The least-squares fit is also left out: `New` takes a `valuate`
function from the regression matrix, the prices and a row to that row's
expected price and value.

Behaviours of the code that the model keeps:

- Capacity uses the LAST `GB`/`TB` marker on a line, and any `TB` marker before
  it keeps the 1024 multiplier (`src/hetzner.py:33-37`).
- A line with fewer than two tokens raises `IndexError` and aborts construction
  (`src/hetzner.py:28`).
- A zero score with no positive same-CPU score becomes NaN, the minimum of an
  empty selection (`src/hetzner.py:68-69`).
- The regression rows carry the pre-repair score (`src/hetzner.py:70`).
- An empty feed leaves the regression matrix empty and one-dimensional, so the
  least-squares fit raises `LinAlgError` (`src/hetzner.py:73-75`).
- `filter` knows only `ram_min`/`ram_max` and narrows the object in place
  (`src/hetzner.py:100-107`).

## Model

| member | source | states |
|---|---|---|
| `Text.Split` | src/hetzner.py:28 | every token `str.split()` yields is non-empty and contains no whitespace |
| `Text.SplitJoin` | src/hetzner.py:28 | splitting whitespace-free words joined by single spaces gives back exactly those words |
| `Text.DigitsRoundTrip` | src/hetzner.py:29 | the decimal digits written for n read back as n |
| `Text.IntRoundTrip` | src/hetzner.py:24 | `int()` of the decimal text of n is n, and of "-" followed by it is -n |
| `Text.Truncate` | src/hetzner.py:24 | `int()` of a number truncates toward zero: the result is within 1 of x on the side of zero |
| `Text.ScanDigits` | src/hetzner.py:37 | `float()` reading a run of digits appends them to the mantissa, and digits after the point raise the scale by the run's length |
| `Text.DecimalValue` | src/hetzner.py:37 | `float()` of "a.f" for digit strings a and f is the decimal number a.f |
| `Text.WholeValue` | src/hetzner.py:37 | `float()` of a digit string is the integer it spells |
| `Text.ReplaceAppend` | src/hetzner.py:37 | `replace` of one character acts piecewise on a concatenation |
| `Text.ReplaceDigits` | src/hetzner.py:37 | replacing `,` with `.` leaves a digit string unchanged |
| `Disks.LastMarker` | src/hetzner.py:33-37 | the index of the last `GB`/`TB` token with no marker after it, and none exactly when the line has no marker |
| `Disks.ScanCapacity` | src/hetzner.py:31-37 | the token loop's `modifier * space` is the magnitude before the last marker times 1024 if any marker is `TB`, 0 without a marker, and ValueError once a marker follows a non-number |
| `Disks.ScanRaises` | src/hetzner.py:37 | a marker whose preceding token `float()` rejects makes the line raise ValueError, whatever follows |
| `Disks.NoRecovery` | src/hetzner.py:33-37 | a magnitude that failed to parse is never made good by later tokens |
| `Disks.MagnitudesParseIff` | src/hetzner.py:33-37 | the scan raises exactly when some marker follows a token that is not a number |
| `Disks.CapacityAtLast` | src/hetzner.py:33-38 | with every marker after a number, capacity is the multiplier times the magnitude before the last marker |
| `Disks.StickyTerabytes` | src/hetzner.py:35-37 | a `TB` marker before a later `GB` marker keeps the 1024 multiplier, while the magnitude comes from the last marker |
| `Disks.ParseLine` | src/hetzner.py:28-49 | one pass of the loop body gives the line's contribution: IndexError for fewer than two tokens, nothing for a non-disk line, else quantity times capacity |
| `Disks.SumDescription` | src/hetzner.py:27-49 | the loop over the description lines accumulates `hdd_size` and `ssd_size` as `DescriptionTotals`, stopping at the first line that raises |
| `Disks.ErrorPersists` | src/hetzner.py:27-29 | once some prefix of the lines raises, the whole listing raises the same error |
| `Disks.AbortAt` | src/hetzner.py:27-49 | the first line that raises decides the listing's error |
| `Disks.TotalsOkIff` | src/hetzner.py:27-49 | a listing's totals exist exactly when every one of its lines parses |
| `Disks.TotalsAppend` | src/hetzner.py:38 | totals are additive: the totals of two runs of lines combine to the totals of the whole, the first error winning |
| `Disks.OtherLineAddsNothing` | src/hetzner.py:28-39 | a line whose second token is neither exactly `HDD` nor exactly `SSD` leaves both totals unchanged |
| `Disks.NoDiskLinesNoSpace` | src/hetzner.py:25-26 | with no HDD or SSD line, both totals stay 0 |
| `Disks.ShortLineRaises` | src/hetzner.py:28 | a line of fewer than two tokens after well-formed lines makes the listing raise IndexError |
| `Disks.DiskLine` | src/hetzner.py:28-49 | a line `<n><x> <HDD or SSD> <m> <GB or TB> <words>` contributes n times m, times 1024 for `TB`, to its kind |
| `Disks.QuantityToken` | src/hetzner.py:29 | the quantity of a first token "<n><letter>" is n |
| `Disks.CommaMagnitude` | src/hetzner.py:48 | a magnitude "a,f" reads as the decimal a.f, and "a" as a |
| `Disks.ExampleSsdLine` | src/hetzner.py:39-49 | "2x SSD 480 GB" adds 960 GB of SSD |
| `Disks.ExampleHddLine` | src/hetzner.py:28-38 | "4x HDD 2,5 TB SATA" adds 10240 GB of HDD |
| `Listings.BuildRow` | src/hetzner.py:21-61 | one server's row: ram read first (its error wins), then the description totals, then the row with ECC as 1/0 and no valuation |
| `Listings.AssembleRows` | src/hetzner.py:20-61 | the append loop builds the table of `AssembledRows`, or raises the first server's exception |
| `Listings.AssembleErrorPersists` | src/hetzner.py:20-24 | a server that raises aborts the whole construction with its error |
| `Listings.AssembledRowsIff` | src/hetzner.py:20-61 | the table exists exactly when every server's row does, and then has one row per server, in feed order |
| `Listings.RowColumns` | src/hetzner.py:50-61 | a built row holds ECC as 1 or 0, the integer ram, the description's disk totals, the raw score and cpu, and no valuation yet |
| `Listings.RowErrors` | src/hetzner.py:24-49 | a server raises exactly when its ram or one of its description lines does, and a bad ram is reported first |
| `Listings.RamRoundTrip` | src/hetzner.py:24 | `int()` on a ram string reads back the written integer, and on a number truncates it |
| `Listings.GroupMin` | src/hetzner.py:68 | the least score > 0 among rows with the given cpu, and none exactly when there is none |
| `Listings.RepairedRow` | src/hetzner.py:64-69 | a nonzero score is kept, a zero score becomes the least positive same-cpu score, or NaN when there is none, and no other column changes |
| `Listings.PartlyRepairedScores` | src/hetzner.py:66-69 | repairs made earlier in the loop add no new positive score to any cpu group |
| `Listings.GroupMinStable` | src/hetzner.py:68-69 | the minimum read from the live, partly repaired table equals the one of the assembled table |
| `Listings.RepairScores` | src/hetzner.py:64-71 | the loop leaves the repaired table, and regression rows and prices taken from the iteration copies, which hold the pre-repair scores |
| `Listings.NoZeroAfterRepair` | src/hetzner.py:64-69 | after the repair no score is 0 |
| `Listings.RepairIdempotent` | src/hetzner.py:64-69 | repairing a repaired table changes nothing |
| `Listings.RepairTouchesOnlyZeroScores` | src/hetzner.py:69 | the repair writes only `cpu_score`, and only of rows whose score was 0 |
| `Listings.ValuedRow` | src/hetzner.py:81-82 | valuation sets `expected_price` and `value` and leaves every other column as it was |
| `Listings.ApplyValuation` | src/hetzner.py:79-82 | every row of the repaired table gets the valuation fitted on the regression data, and nothing else changes |
| `Ranking.Insert` | src/hetzner.py:84 | placing a row into a ranked table keeps it ranked and adds exactly that row |
| `Ranking.SortByValue` | src/hetzner.py:84 | the sorted table is ordered by value, highest first with NaN last, and is a permutation of the input |
| `Auction.Where` | src/hetzner.py:103 | a boolean mask keeps exactly the rows that pass it, each as often as it occurs |
| `Auction.WhereSubsequence` | src/hetzner.py:105 | a mask keeps the relative order of the rows |
| `Auction.WhereWhere` | src/hetzner.py:102-105 | two masks in a row select what their conjunction selects |
| `Auction.RamSelection` | src/hetzner.py:100-106 | `filter_ram` keeps exactly the rows with ram within the supplied bounds, inclusive, in their order |
| `Auction.NoBoundsKeepsAll` | src/hetzner.py:100-106 | with neither `ram_min` nor `ram_max` the table is unchanged |
| `Auction.FilterIdempotent` | src/hetzner.py:100-106 | filtering twice with the same bounds equals filtering once |
| `Auction.FilterChained` | src/hetzner.py:106-107 | a chained second call keeps the rows within both sets of bounds, is a subsequence of the first result and of the table, and never grows |
| `Auction.FilterCommutes` | src/hetzner.py:100-107 | the order of two chained calls does not matter |
| `Auction.OtherKeysIgnored` | src/hetzner.py:97-105 | keyword arguments other than `ram_min` and `ram_max` make no difference |
| `Auction.FilterKeepsRanking` | src/hetzner.py:84-106 | a table ranked by value stays ranked after the filter |
| `Auction.FilterSteps` | src/hetzner.py:101-105 | the `ram_max` mask followed by the `ram_min` mask, each applied only when its key is given, selects the rows within all supplied bounds |
| `Auction.Table` | src/hetzner.py:20-82 | the unsorted table exists exactly when the feed is non-empty and every server's row can be built; otherwise it carries the first server's error, or `LinAlgError` for an empty feed |
| `Auction.TableRows` | src/hetzner.py:20-82 | the unsorted table has one row per server, built from it, with only score, expected price and value changed, no score at 0, and nonzero scores kept |
| `Auction.HetznerAuction.FromRows` | src/hetzner.py:87 | the new object's `data` is the given table |
| `Auction.HetznerAuction.New` | src/hetzner.py:11-87 | construction raises exactly when some server cannot be read (with its error) or the feed is empty (`LinAlgError` from the fit), and otherwise yields a fresh object whose `data` is ranked by value and is a permutation of the repaired, valued table |
| `Auction.HetznerAuction.Data` | src/hetzner.py:89-91 | the property returns the current table |
| `Auction.HetznerAuction.SetData` | src/hetzner.py:93-95 | the setter replaces the table with the one given |
| `Auction.HetznerAuction.FilterRam` | src/hetzner.py:100-107 | `data` becomes the rows of the old table within the supplied RAM bounds, in order, and the object itself is returned |
| `Auction.HetznerAuction.Filter` | src/hetzner.py:97-98 | `filter` forwards its keyword arguments and so narrows `data` exactly as `filter_ram` does |

## Left out

- The HTTP fetch of the feed (`src/hetzner.py:12-13`) is network I/O. `HetznerAuction.New` takes the parsed server list instead.
- The least-squares fit and the float computation of `expected_price` and `value` (`src/hetzner.py:73-82`) are floating-point work in a foreign library. They are the `valuate` parameter: it gets the regression rows and prices the loop collects, and is applied to each repaired row.
- `Auction.Table`: the only failure of the fit modelled is `LinAlgError` on an empty feed. Other numerical failures of `lstsq`, such as an SVD that does not converge, are not modelled, because `valuate` is total.
- `Auction.HetznerAuction.New`: states that `data` is ranked and a permutation of the valued table, not which order pandas' unstable quicksort gives to rows of equal value.
- `Text.ParseInt`: Python's `int()` also accepts surrounding whitespace, `_` between digits and non-ASCII digits. Split tokens hold no whitespace, but a ram string could hold any of these. Such text reads as ValueError here.
- `Text.ParseFloat`: exponents, `inf`/`nan`, `_` between digits, surrounding whitespace and non-ASCII decimal digits, which Python's `float()` accepts, read as ValueError here.
- `Listings.RamValue`: a JSON boolean `ram` is not modelled (Python's `int(True)` is 1), since the field is a number or a string.
- Missing keys in a server record (KeyError) are not modelled: `Server` has every field the constructor reads.
- `is_ecc` is modelled as a boolean. The truthiness of other JSON values is not.
- Bounds for `filter_ram` are numbers. A non-numeric bound, which would raise TypeError in pandas, is not modelled.
- Float rounding is not modelled: magnitudes, sizes and prices are exact reals.
- The positional `*args` of `filter` and `filter_ram` are ignored by the source and are absent from the model.
- pandas index mechanics are not modelled. `reset_index(drop=True)` renumbers rows from 0, which a sequence's positions already are. Dtypes, and the deprecated `DataFrame.append`, are also left out.
- `df.price.astype(float)` (`src/hetzner.py:85`), `__str__` (`src/hetzner.py:109-110`) and the unused `MAX_INT` (`src/hetzner.py:8`) have no behavioural content here.
- `Auction.HetznerAuction.Data`: returns the table as a value, so later changes made through the returned DataFrame object, which pandas would share with the object, are not modelled.
- `src/app.py` is a print script whose `.filter(...)` calls go to pandas' own `DataFrame.filter`. It is not part of this model.
