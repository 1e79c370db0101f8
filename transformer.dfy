/** The cleaning and feature-deriving step: mean imputation of missing
    temperatures, flooring of consumption at zero, then the net grid load,
    the self-sufficiency flag and the estimated cost of every row.

    The step works column by column on the loaded table, as the source does:
    each column is an array that the steps below update in place. Its meaning
    is fixed by the function `CleanTable`, and the lemmas after it state what
    the cleaned table promises. */
module Transformer {
  import opened Wrappers
  import opened Readings

  /** Price of one kWh drawn from the grid; solar energy is free. */
  const UnitPrice: real := 0.15

  /** The one failure of the step: the raw table has not been produced yet. */
  datatype TransformError = MissingInput

  /** The mean of a column as pandas computes it: missing cells are skipped,
      and a column with no present cell has no mean (NaN). */
  function Mean(temps: seq<Option<real>>): (m: Option<real>)
    ensures m.Some? <==> PresentCount(temps) > 0
  {
    if PresentCount(temps) == 0 then None
    else Some(PresentSum(temps) / PresentCount(temps) as real)
  }

  /** `fillna` on a single cell. */
  function FillMissing(cell: Option<real>, fill: Option<real>): Option<real>
  {
    if cell.None? then fill else cell
  }

  /** The temperature column after step 1: when some cell is missing, every
      missing cell takes the column mean. */
  function ImputedTemperatures(temps: seq<Option<real>>): (out: seq<Option<real>>)
    ensures |out| == |temps|
    ensures forall i :: 0 <= i < |temps| && temps[i].Some? ==> out[i] == temps[i]
    ensures forall i :: 0 <= i < |temps| && temps[i].None? ==> out[i] == Mean(temps)
  {
    if MissingCount(temps) > 0 then
      seq(|temps|, i requires 0 <= i < |temps| => FillMissing(temps[i], Mean(temps)))
    else
      NoMissingIffAllPresent(temps);
      temps
  }

  /** Consumption after step 2: negative and zero readings become 0. */
  function ClampConsumption(x: real): (kwh: real)
    ensures kwh >= 0.0 && kwh >= x
    ensures kwh == x || kwh == 0.0
  {
    if x > 0.0 then x else 0.0
  }

  /** Cost of the energy drawn from the grid in one hour; a surplus costs nothing. */
  function EstimatedCost(net: real): (cost: real)
    ensures cost >= 0.0
    ensures cost == 0.0 <==> net <= 0.0
    ensures net > 0.0 ==> cost == UnitPrice * net
  {
    if net > 0.0 then net * UnitPrice else 0.0
  }

  /** One processed row from its raw row and its imputed temperature. */
  function CleanRow(raw: RawReading, temperature: Option<real>): (row: CleanedReading)
    ensures Consistent(row)
    ensures row.timestamp == raw.timestamp && row.solar == raw.solar && row.temperature == temperature
    ensures row.consumption == raw.consumption || (raw.consumption <= 0.0 && row.consumption == 0.0)
  {
    var consumption := ClampConsumption(raw.consumption);
    var net := consumption - raw.solar;
    CleanedReading(raw.timestamp, consumption, raw.solar, temperature,
                   net, net <= 0.0, EstimatedCost(net))
  }

  /** The processed table: the meaning of the whole step. */
  function CleanTable(rows: seq<RawReading>): (out: seq<CleanedReading>)
    ensures |out| == |rows|
  {
    var temps := ImputedTemperatures(Temperatures(rows));
    seq(|rows|, i requires 0 <= i < |rows| => CleanRow(rows[i], temps[i]))
  }

  /** The derived columns of a processed row agree with its consumption and
      solar columns. */
  predicate Consistent(row: CleanedReading)
  {
    && row.consumption >= 0.0
    && row.netGridLoad == row.consumption - row.solar
    && row.isSelfSufficient == (row.netGridLoad <= 0.0)
    && row.estimatedCost == EstimatedCost(row.netGridLoad)
  }

  // ---------------------------------------------------------------------
  // The in-place steps

  /** Step 1, `fillna(mean, inplace=True)` guarded by `isnull().sum() > 0`. */
  method ImputeTemperatures(temperature: array<Option<real>>)
    modifies temperature
    ensures temperature[..] == ImputedTemperatures(old(temperature[..]))
  {
    ghost var before := temperature[..];
    if MissingCount(temperature[..]) > 0 {
      var mean := Mean(temperature[..]);
      for i := 0 to temperature.Length
        invariant forall j :: 0 <= j < i ==> temperature[j] == FillMissing(before[j], mean)
        invariant forall j :: i <= j < temperature.Length ==> temperature[j] == before[j]
      {
        if temperature[i].None? {
          temperature[i] := mean;
        }
      }
      assert temperature[..] == ImputedTemperatures(before);
    }
  }

  /** Step 2, the consumption column overwritten with its clamped values. */
  method ClampConsumptionColumn(consumption: array<real>)
    modifies consumption
    ensures forall i :: 0 <= i < consumption.Length ==>
              consumption[i] == ClampConsumption(old(consumption[i]))
  {
    for i := 0 to consumption.Length
      invariant forall j :: 0 <= j < i ==> consumption[j] == ClampConsumption(old(consumption[j]))
      invariant forall j :: i <= j < consumption.Length ==> consumption[j] == old(consumption[j])
    {
      if !(consumption[i] > 0.0) {
        consumption[i] := 0.0;
      }
    }
  }

  /** Step 3, the three new columns computed from the cleaned consumption. */
  method DeriveFeatures(consumption: array<real>, solar: array<real>)
      returns (net: array<real>, selfSufficient: array<bool>, cost: array<real>)
    requires consumption.Length == solar.Length
    ensures fresh(net) && fresh(selfSufficient) && fresh(cost)
    ensures net.Length == selfSufficient.Length == cost.Length == consumption.Length
    ensures forall i :: 0 <= i < net.Length ==>
              && net[i] == consumption[i] - solar[i]
              && selfSufficient[i] == (net[i] <= 0.0)
              && cost[i] == EstimatedCost(net[i])
  {
    var n := consumption.Length;
    net := new real[n];
    selfSufficient := new bool[n];
    cost := new real[n];
    for i := 0 to n
      invariant forall j :: 0 <= j < i ==>
                  && net[j] == consumption[j] - solar[j]
                  && selfSufficient[j] == (net[j] <= 0.0)
                  && cost[j] == EstimatedCost(net[j])
    {
      net[i] := consumption[i] - solar[i];
      selfSufficient[i] := net[i] <= 0.0;
      cost[i] := if net[i] > 0.0 then net[i] * UnitPrice else 0.0;
    }
  }

  /** The whole step: an absent raw table fails with `MissingInput` and
      yields no processed table; otherwise the processed table is `CleanTable`. */
  method TransformEnergyData(raw: Option<seq<RawReading>>)
      returns (r: Result<seq<CleanedReading>, TransformError>)
    ensures raw.None? <==> r.Failure?
    ensures r.Failure? ==> r.error == MissingInput
    ensures raw.Some? ==> r == Success(CleanTable(raw.value))
  {
    if raw.None? {
      return Failure(MissingInput);
    }
    var rows := raw.value;
    var n := |rows|;
    var temperature := new Option<real>[n](i requires 0 <= i < n => rows[i].temperature);
    var consumption := new real[n](i requires 0 <= i < n => rows[i].consumption);
    var solar := new real[n](i requires 0 <= i < n => rows[i].solar);
    assert temperature[..] == Temperatures(rows);
    ImputeTemperatures(temperature);
    ClampConsumptionColumn(consumption);
    var net, selfSufficient, cost := DeriveFeatures(consumption, solar);
    var table := Assemble(rows, temperature[..], consumption[..], solar[..],
                          net[..], selfSufficient[..], cost[..]);
    r := Success(table);
  }

  /** Puts the processed columns back together, row by row. */
  function Assemble(rows: seq<RawReading>, temperature: seq<Option<real>>, consumption: seq<real>,
                    solar: seq<real>, net: seq<real>, selfSufficient: seq<bool>, cost: seq<real>)
      : (table: seq<CleanedReading>)
    requires temperature == ImputedTemperatures(Temperatures(rows))
    requires |consumption| == |solar| == |net| == |selfSufficient| == |cost| == |rows|
    requires forall i :: 0 <= i < |rows| ==> consumption[i] == ClampConsumption(rows[i].consumption)
    requires forall i :: 0 <= i < |rows| ==> solar[i] == rows[i].solar
    requires forall i :: 0 <= i < |rows| ==>
               && net[i] == consumption[i] - solar[i]
               && selfSufficient[i] == (net[i] <= 0.0)
               && cost[i] == EstimatedCost(net[i])
    ensures table == CleanTable(rows)
  {
    seq(|rows|, i requires 0 <= i < |rows| =>
      CleanedReading(rows[i].timestamp, consumption[i], solar[i], temperature[i],
                     net[i], selfSufficient[i], cost[i]))
  }

  // ---------------------------------------------------------------------
  // What the processed table promises

  /** Row count and row order are kept, the solar column is untouched, and
      every derived column is computed from the clamped consumption. */
  lemma CleanTableRows(rows: seq<RawReading>)
    ensures |CleanTable(rows)| == |rows|
    ensures forall i :: 0 <= i < |rows| ==>
              var row := CleanTable(rows)[i];
              && row.timestamp == rows[i].timestamp
              && row.solar == rows[i].solar
              && row.consumption == ClampConsumption(rows[i].consumption)
              && row.netGridLoad == ClampConsumption(rows[i].consumption) - rows[i].solar
              && Consistent(row)
  {
  }

  /** A row is self-sufficient exactly when it costs nothing. */
  lemma SelfSufficientIffFree(row: CleanedReading)
    requires Consistent(row)
    ensures row.isSelfSufficient <==> row.estimatedCost == 0.0
  {
  }

  /** When at least one temperature is present, no temperature is missing after cleaning. */
  lemma ImputationFillsEveryGap(rows: seq<RawReading>)
    requires PresentCount(Temperatures(rows)) > 0
    ensures forall i :: 0 <= i < |rows| ==> CleanTable(rows)[i].temperature.Some?
  {
  }

  /** Imputed cells hold the mean of the present temperatures; present cells are unchanged. */
  lemma ImputedValueIsMean(rows: seq<RawReading>, i: int)
    requires 0 <= i < |rows|
    ensures rows[i].temperature.Some? ==> CleanTable(rows)[i].temperature == rows[i].temperature
    ensures rows[i].temperature.None? && PresentCount(Temperatures(rows)) > 0 ==>
              CleanTable(rows)[i].temperature ==
                Some(PresentSum(Temperatures(rows)) / PresentCount(Temperatures(rows)) as real)
  {
  }

  /** A table without gaps keeps its temperature column as it is. */
  lemma NoGapNoChange(rows: seq<RawReading>)
    requires MissingCount(Temperatures(rows)) == 0
    ensures forall i :: 0 <= i < |rows| ==> CleanTable(rows)[i].temperature == rows[i].temperature
  {
  }

  /** With no temperature present the mean is NaN and every gap stays a gap. */
  lemma AllMissingStaysMissing(rows: seq<RawReading>)
    requires PresentCount(Temperatures(rows)) == 0
    ensures forall i :: 0 <= i < |rows| ==> CleanTable(rows)[i].temperature.None?
  {
    NonePresentIffAllMissing(Temperatures(rows));
  }

  /** Sum over the present cells of their deviation from `m`. */
  function Deviation(temps: seq<Option<real>>, m: real): real
  {
    if temps == [] then 0.0
    else (if temps[0].Some? then temps[0].value - m else 0.0) + Deviation(temps[1..], m)
  }

  lemma {:induction false} DeviationIsSumMinusCount(temps: seq<Option<real>>, m: real)
    ensures Deviation(temps, m) == PresentSum(temps) - PresentCount(temps) as real * m
  {
    if temps != [] {
      DeviationIsSumMinusCount(temps[1..], m);
      var rest := PresentCount(temps[1..]) as real;
      if temps[0].Some? {
        assert PresentCount(temps) as real == rest + 1.0;
        assert (rest + 1.0) * m == rest * m + m;
      } else {
        assert PresentCount(temps) as real == rest;
      }
    }
  }

  /** The imputed value is characterised without division: it is the one
      value from which the present temperatures deviate by zero in total. */
  lemma MeanBalancesDeviations(temps: seq<Option<real>>, m: real)
    requires PresentCount(temps) > 0
    ensures Deviation(temps, m) == 0.0 <==> Mean(temps) == Some(m)
  {
    var c := PresentCount(temps) as real;
    var sum := PresentSum(temps);
    assert Mean(temps) == Some(sum / c);
    DeviationIsSumMinusCount(temps, m);
    QuotientBalances(sum, c, m, Deviation(temps, m));
  }

  lemma QuotientBalances(sum: real, c: real, m: real, deviation: real)
    requires c > 0.0 && deviation == sum - c * m
    ensures deviation == 0.0 <==> sum / c == m
  {
  }

  /** Temperatures [10, 20, missing, 30, 40] are cleaned to 25 at the gap. */
  lemma ImputationExample()
    ensures ImputedTemperatures([Some(10.0), Some(20.0), None, Some(30.0), Some(40.0)])
              == [Some(10.0), Some(20.0), Some(25.0), Some(30.0), Some(40.0)]
  {
    var temps := [Some(10.0), Some(20.0), None, Some(30.0), Some(40.0)];
    assert PresentCount(temps) == 4;
    assert PresentSum(temps) == 100.0;
    assert MissingCount(temps) == 1;
  }

  /** A generated batch (exactly one gap) of at least two rows is cleaned to a
      table without gaps; a batch of one row keeps its gap, as its mean is NaN. */
  lemma GeneratedBatchIsRepaired(rows: seq<RawReading>)
    requires MissingCount(Temperatures(rows)) == 1
    ensures |rows| >= 2 ==> forall i :: 0 <= i < |rows| ==> CleanTable(rows)[i].temperature.Some?
    ensures |rows| == 1 ==> CleanTable(rows)[0].temperature.None?
  {
  }
}
