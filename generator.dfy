/** The synthetic series generator: hourly consumption, solar generation and
    temperature over a window of timestamps, with one temperature knocked out
    on purpose so that the cleaning step has something to repair.

    The wall clock, `sin` and the random draws are parameters: the window is
    given as a sequence of timestamps, `sin(2*pi*h/24)` as a table indexed by
    the hour of day, the Gaussian noise and the cloud factors as one value per
    row, and the `randint` draw of the faulty row as an index. */
module Generator {
  import opened Wrappers
  import opened Readings

  /** Minimum consumption, kWh. */
  const BaseLoad: real := 50.0
  /** Half the peak-to-trough swing of the diurnal consumption cycle, kWh. */
  const LoadSwing: real := 30.0
  /** Solar output at noon under a clear sky, kWh. */
  const SolarPeak: real := 40.0
  /** First and last hour with daylight, and the hour of peak sun. */
  const Sunrise: int := 6
  const Sunset: int := 18
  const Noon: int := 12
  /** Mean temperature and half its diurnal swing, degrees Celsius. */
  const MeanTemperature: real := 20.0
  const TemperatureSwing: real := 10.0

  /** The one way generation fails: `randint(0, n_rows - 1)` has no value to
      draw when the window holds no rows. */
  datatype GenerationError = EmptyWindow

  function Abs(x: int): (a: nat)
    ensures a == x || a == -x
  {
    if x < 0 then -x else x
  }

  /** The triangular daylight envelope scaled by the cloud factor of the hour. */
  function SolarEnvelope(hour: Hour, cloud: real): (kwh: real)
    ensures !(Sunrise <= hour <= Sunset) ==> kwh == 0.0
    ensures hour == Sunrise || hour == Sunset ==> kwh == 0.0
    ensures hour == Noon ==> kwh == SolarPeak * cloud
    ensures 0.0 <= cloud ==> 0.0 <= kwh <= SolarPeak * cloud
  {
    if Sunrise <= hour <= Sunset then
      var efficiency := 1.0 - Abs(Noon - hour) as real / 6.0;
      assert 0.0 <= efficiency <= 1.0;
      SolarPeak * efficiency * cloud
    else
      0.0
  }

  /** With a cloud factor drawn from [0.2, 1.0] the solar value of any hour
      lies between 0 and the clear-sky peak. */
  lemma SolarWithinPeak(hour: Hour, cloud: real)
    requires 0.2 <= cloud <= 1.0
    ensures 0.0 <= SolarEnvelope(hour, cloud) <= SolarPeak
  {
  }

  /** The per-hour loop that builds the solar column, one entry per timestamp
      and in timestamp order. */
  method SolarGeneration(hours: seq<Hour>, clouds: seq<real>) returns (solar: seq<real>)
    requires |clouds| == |hours|
    ensures |solar| == |hours|
    ensures forall i :: 0 <= i < |hours| ==> solar[i] == SolarEnvelope(hours[i], clouds[i])
    ensures forall i :: 0 <= i < |hours| && !(Sunrise <= hours[i] <= Sunset) ==> solar[i] == 0.0
    ensures (forall i :: 0 <= i < |hours| ==> 0.2 <= clouds[i] <= 1.0) ==>
              forall i :: 0 <= i < |hours| ==> 0.0 <= solar[i] <= SolarPeak
  {
    solar := [];
    for i := 0 to |hours|
      invariant |solar| == i
      invariant forall j :: 0 <= j < i ==> solar[j] == SolarEnvelope(hours[j], clouds[j])
    {
      var hour := hours[i];
      if Sunrise <= hour <= Sunset {
        var efficiency := 1.0 - Abs(Noon - hour) as real / 6.0;
        solar := solar + [SolarPeak * efficiency * clouds[i]];
      } else {
        solar := solar + [0.0];
      }
    }
  }

  /** Consumption of one row from its diurnal factor `sin(2*pi*h/24)` and its noise draw. */
  function Consumption(hourFactor: real, noise: real): (kwh: real)
    ensures -1.0 <= hourFactor <= 1.0 ==>
              BaseLoad + noise <= kwh <= BaseLoad + 2.0 * LoadSwing + noise
    ensures kwh - noise == BaseLoad + LoadSwing * (hourFactor + 1.0)
  {
    BaseLoad + LoadSwing * (hourFactor + 1.0) + noise
  }

  /** The noise-free part of consumption stays within [50, 110] kWh. */
  lemma ConsumptionWithoutNoiseInBand(hourFactor: real)
    requires -1.0 <= hourFactor <= 1.0
    ensures 50.0 <= Consumption(hourFactor, 0.0) <= 110.0
  {
  }

  /** Temperature of one row from its diurnal factor and its noise draw. */
  function Temperature(hourFactor: real, noise: real): (celsius: real)
    ensures -1.0 <= hourFactor <= 1.0 ==>
              MeanTemperature - TemperatureSwing + noise <= celsius <= MeanTemperature + TemperatureSwing + noise
  {
    MeanTemperature + TemperatureSwing * hourFactor + noise
  }

  /** The row the generator builds before fault injection. */
  function GeneratedRow(ts: Timestamp, hourFactor: seq<real>, consumptionNoise: real,
                        cloud: real, temperatureNoise: real): RawReading
    requires |hourFactor| == 24
  {
    RawReading(ts,
               Consumption(hourFactor[ts.hour], consumptionNoise),
               SolarEnvelope(ts.hour, cloud),
               Some(Temperature(hourFactor[ts.hour], temperatureNoise)))
  }

  /** Marks the temperature of row `draw` as missing, in place. `draw` is the
      value of `randint(0, n_rows - 1)`; with no rows there is nothing to draw
      and nothing changes. */
  method InjectMissingTemperature(table: array<RawReading>, draw: int)
      returns (r: Result<(), GenerationError>)
    requires table.Length > 0 ==> 0 <= draw < table.Length
    modifies table
    ensures table.Length == 0 ==> r == Failure(EmptyWindow)
    ensures table.Length > 0 ==> r == Success(())
    ensures table.Length > 0 ==>
              table[..] == old(table[..])[draw := old(table[draw]).(temperature := None)]
  {
    if table.Length == 0 {
      return Failure(EmptyWindow);
    }
    table[draw] := table[draw].(temperature := None);
    r := Success(());
  }

  /** The generation step: builds one raw row per timestamp, then injects the
      single missing temperature. */
  method GenerateEnergyData(timestamps: seq<Timestamp>, hourFactor: seq<real>,
                            consumptionNoise: seq<real>, clouds: seq<real>,
                            temperatureNoise: seq<real>, faultRow: int)
      returns (r: Result<seq<RawReading>, GenerationError>)
    requires |hourFactor| == 24
    requires |consumptionNoise| == |timestamps| && |clouds| == |timestamps|
    requires |temperatureNoise| == |timestamps|
    requires |timestamps| > 0 ==> 0 <= faultRow < |timestamps|
    ensures r.Failure? <==> |timestamps| == 0
    ensures r.Failure? ==> r.error == EmptyWindow
    ensures r.Success? ==> |r.value| == |timestamps|
    ensures r.Success? ==> forall i :: 0 <= i < |timestamps| ==>
              r.value[i] == var row := GeneratedRow(timestamps[i], hourFactor, consumptionNoise[i],
                                                    clouds[i], temperatureNoise[i]);
                            if i == faultRow then row.(temperature := None) else row
    ensures r.Success? ==> MissingCount(Temperatures(r.value)) == 1
    ensures r.Success? ==> forall i :: 0 <= i < |timestamps| ==>
              (r.value[i].temperature.None? <==> i == faultRow)
  {
    var n := |timestamps|;
    var hours := seq(n, i requires 0 <= i < n => timestamps[i].hour);
    var consumption := seq(n, i requires 0 <= i < n => Consumption(hourFactor[hours[i]], consumptionNoise[i]));
    var solar := SolarGeneration(hours, clouds);
    var temperature := seq(n, i requires 0 <= i < n => Temperature(hourFactor[hours[i]], temperatureNoise[i]));
    var table := new RawReading[n](i requires 0 <= i < n =>
                   RawReading(timestamps[i], consumption[i], solar[i], Some(temperature[i])));
    ghost var built := table[..];
    assert forall i :: 0 <= i < n ==>
      built[i] == GeneratedRow(timestamps[i], hourFactor, consumptionNoise[i], clouds[i], temperatureNoise[i]);
    var injected := InjectMissingTemperature(table, faultRow);
    if injected.Failure? {
      return Failure(EmptyWindow);
    }
    r := Success(table[..]);
    SingleGapCount(Temperatures(r.value), faultRow);
  }
}
