/** The rows that flow through the pipeline: the raw hourly readings the
    generator produces and the cleaned, enriched readings the transformer
    writes and the dashboard aggregates. */
module Readings {
  import opened Wrappers

  /** An hour of the day, as pandas' `.dt.hour` gives it. */
  type Hour = h: int | 0 <= h < 24

  /** An hourly-aligned point in time: a calendar day number and the hour of that day. */
  datatype Timestamp = Timestamp(day: int, hour: Hour)

  /** One row of the raw table; a missing temperature is `None`. */
  datatype RawReading = RawReading(
    timestamp: Timestamp,
    consumption: real,
    solar: real,
    temperature: Option<real>)

  /** One row of the processed table: the raw columns after cleaning plus
      the three derived columns. */
  datatype CleanedReading = CleanedReading(
    timestamp: Timestamp,
    consumption: real,
    solar: real,
    temperature: Option<real>,
    netGridLoad: real,
    isSelfSufficient: bool,
    estimatedCost: real)

  /** The temperature column of a raw table. */
  function Temperatures(rows: seq<RawReading>): (temps: seq<Option<real>>)
    ensures |temps| == |rows|
    ensures forall i :: 0 <= i < |rows| ==> temps[i] == rows[i].temperature
  {
    seq(|rows|, i requires 0 <= i < |rows| => rows[i].temperature)
  }

  /** Number of missing cells in a column (`isnull().sum()`). */
  function MissingCount(temps: seq<Option<real>>): (n: nat)
    ensures n <= |temps|
  {
    if temps == [] then 0
    else (if temps[0].None? then 1 else 0) + MissingCount(temps[1..])
  }

  /** Number of present cells in a column (`count()`). */
  function PresentCount(temps: seq<Option<real>>): (n: nat)
    ensures n + MissingCount(temps) == |temps|
  {
    if temps == [] then 0
    else (if temps[0].Some? then 1 else 0) + PresentCount(temps[1..])
  }

  /** Sum of the present cells of a column; missing cells are skipped. */
  function PresentSum(temps: seq<Option<real>>): real
  {
    if temps == [] then 0.0
    else (if temps[0].Some? then temps[0].value else 0.0) + PresentSum(temps[1..])
  }

  /** A column has no missing cell exactly when every cell is present. */
  lemma {:induction false} NoMissingIffAllPresent(temps: seq<Option<real>>)
    ensures MissingCount(temps) == 0 <==> forall i :: 0 <= i < |temps| ==> temps[i].Some?
  {
    if temps != [] {
      NoMissingIffAllPresent(temps[1..]);
      assert forall i :: 1 <= i < |temps| ==> temps[i] == temps[1..][i - 1];
    }
  }

  /** A column has no present cell exactly when every cell is missing. */
  lemma {:induction false} NonePresentIffAllMissing(temps: seq<Option<real>>)
    ensures PresentCount(temps) == 0 <==> forall i :: 0 <= i < |temps| ==> temps[i].None?
  {
    if temps != [] {
      NonePresentIffAllMissing(temps[1..]);
      assert forall i :: 1 <= i < |temps| ==> temps[i] == temps[1..][i - 1];
    }
  }

  /** A column in which exactly the cell at row `k` is missing has exactly one
      missing cell. */
  lemma {:induction false} SingleGapCount(temps: seq<Option<real>>, k: int)
    requires 0 <= k < |temps|
    requires forall i :: 0 <= i < |temps| ==> (temps[i].None? <==> i == k)
    ensures MissingCount(temps) == 1
    ensures PresentCount(temps) == |temps| - 1
  {
    if k == 0 {
      assert MissingCount(temps[1..]) == 0 by {
        NoMissingIffAllPresent(temps[1..]);
        forall i | 0 <= i < |temps[1..]| ensures temps[1..][i].Some? {
          assert temps[1..][i] == temps[i + 1];
        }
      }
    } else {
      forall i | 0 <= i < |temps[1..]|
        ensures temps[1..][i].None? <==> i == k - 1
      {
        assert temps[1..][i] == temps[i + 1];
      }
      SingleGapCount(temps[1..], k - 1);
    }
  }
}
