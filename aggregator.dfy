/** The dashboard's aggregations over the processed table and a closed range
    of calendar days: the selected rows, the consumption and solar totals, the
    solar coverage, the carbon offset, the hour-of-day profile and the energy
    drawn from the grid. All of them are functions: the processed table is
    never changed. */
module Aggregator {
  import opened Wrappers
  import opened Readings
  import Transformer

  /** Kilograms of CO2 avoided per kWh of solar energy. */
  const Co2PerKwh: real := 0.4

  /** The date of a row lies in the closed range [start, end]. */
  predicate InRange(row: CleanedReading, start: int, end: int)
  {
    start <= row.timestamp.day <= end
  }

  /** The rows of the table whose date is in range, in table order (the mask and `df.loc[mask]`). */
  function Selected(table: seq<CleanedReading>, start: int, end: int): (sel: seq<CleanedReading>)
    ensures |sel| <= |table|
  {
    if table == [] then []
    else (if InRange(table[0], start, end) then [table[0]] else [])
         + Selected(table[1..], start, end)
  }

  /** The selection holds exactly the rows of the table whose date is in range. */
  lemma {:induction false} SelectedMembership(table: seq<CleanedReading>, start: int, end: int)
    ensures forall row :: row in Selected(table, start, end) <==> row in table && InRange(row, start, end)
  {
    if table != [] {
      SelectedMembership(table[1..], start, end);
      assert forall row :: row in table <==> row == table[0] || row in table[1..];
    }
  }

  /** Selection distributes over concatenation, so the selected rows keep their
      relative order. */
  lemma {:induction false} SelectedAppend(a: seq<CleanedReading>, b: seq<CleanedReading>, start: int, end: int)
    ensures Selected(a + b, start, end) == Selected(a, start, end) + Selected(b, start, end)
  {
    if a == [] {
      assert a + b == b;
    } else {
      var head := if InRange(a[0], start, end) then [a[0]] else [];
      SelectedAppend(a[1..], b, start, end);
      assert (a + b)[0] == a[0];
      assert (a + b)[1..] == a[1..] + b;
      calc {
        Selected(a + b, start, end);
        head + Selected(a[1..] + b, start, end);
        head + (Selected(a[1..], start, end) + Selected(b, start, end));
        (head + Selected(a[1..], start, end)) + Selected(b, start, end);
      }
    }
  }

  /** A range that covers every row selects the whole table unchanged. */
  lemma {:induction false} SelectedWholeTable(table: seq<CleanedReading>, start: int, end: int)
    requires forall i :: 0 <= i < |table| ==> InRange(table[i], start, end)
    ensures Selected(table, start, end) == table
  {
    if table != [] {
      SelectedWholeTable(table[1..], start, end);
    }
  }

  /** A range that covers no row (one before the first day, say) selects nothing. */
  lemma {:induction false} SelectedNothing(table: seq<CleanedReading>, start: int, end: int)
    requires forall i :: 0 <= i < |table| ==> !InRange(table[i], start, end)
    ensures Selected(table, start, end) == []
  {
    if table != [] {
      SelectedNothing(table[1..], start, end);
    }
  }

  /** `df_filtered['consumption_kwh'].sum()`. */
  function TotalConsumption(rows: seq<CleanedReading>): real
  {
    if rows == [] then 0.0 else rows[0].consumption + TotalConsumption(rows[1..])
  }

  /** `df_filtered['solar_generation_kwh'].sum()`. */
  function TotalSolar(rows: seq<CleanedReading>): real
  {
    if rows == [] then 0.0 else rows[0].solar + TotalSolar(rows[1..])
  }

  /** Totals of two adjacent stretches of rows add up. */
  lemma {:induction false} TotalsAppend(a: seq<CleanedReading>, b: seq<CleanedReading>)
    ensures TotalConsumption(a + b) == TotalConsumption(a) + TotalConsumption(b)
    ensures TotalSolar(a + b) == TotalSolar(a) + TotalSolar(b)
    ensures GridImport(a + b) == GridImport(a) + GridImport(b)
  {
    if a == [] {
      assert a + b == b;
    } else {
      TotalsAppend(a[1..], b);
      assert (a + b)[0] == a[0];
      assert (a + b)[1..] == a[1..] + b;
    }
  }

  /** The totals of a single row are its own values. */
  lemma SingleRowTotals(row: CleanedReading)
    ensures TotalConsumption([row]) == row.consumption
    ensures TotalSolar([row]) == row.solar
    ensures GridImport([row]) == if row.consumption - row.solar > 0.0 then row.consumption - row.solar else 0.0
  {
    assert [row][1..] == [];
  }

  /** Cleaned consumption is never negative, and neither is its total. */
  lemma {:induction false} TotalConsumptionNonNegative(rows: seq<CleanedReading>)
    requires forall i :: 0 <= i < |rows| ==> Transformer.Consistent(rows[i])
    ensures TotalConsumption(rows) >= 0.0
  {
    if rows != [] {
      assert Transformer.Consistent(rows[0]);
      TotalConsumptionNonNegative(rows[1..]);
    }
  }

  /** The self-sufficiency percentage, guarded against a zero total. */
  function SolarCoverage(totalSolar: real, totalConsumption: real): (pct: real)
    ensures totalConsumption > 0.0 ==> pct * totalConsumption == totalSolar * 100.0
    ensures totalConsumption <= 0.0 ==> pct == 0.0
    ensures totalConsumption > 0.0 && 0.0 <= totalSolar <= totalConsumption ==> 0.0 <= pct <= 100.0
  {
    if totalConsumption > 0.0 then (totalSolar / totalConsumption) * 100.0 else 0.0
  }

  /** The solar mix shown as the delta of the solar metric, as the dashboard
      computes it: the division has no guard, so it has a value only when the
      consumption total is not zero. */
  function SolarMixAsWritten(totalSolar: real, totalConsumption: real): (ratio: real)
    requires totalConsumption != 0.0
    ensures ratio * totalConsumption == totalSolar
  {
    totalSolar / totalConsumption
  }

  /** The solar mix with the same guard as the coverage: a zero (or negative)
      total gives 0, and otherwise it is the unguarded ratio. */
  function SolarMixRatio(totalSolar: real, totalConsumption: real): (ratio: real)
    ensures ratio * 100.0 == SolarCoverage(totalSolar, totalConsumption)
    ensures totalConsumption > 0.0 ==> ratio == SolarMixAsWritten(totalSolar, totalConsumption)
    ensures totalConsumption <= 0.0 ==> ratio == 0.0
  {
    if totalConsumption > 0.0 then totalSolar / totalConsumption else 0.0
  }

  /** One hour whose raw consumption was clamped to zero, with no sun. */
  function IdleHour(): CleanedReading
  {
    CleanedReading(Timestamp(0, 3), 0.0, 0.0, None, 0.0, true, 0.0)
  }

  /** A selection whose consumption was clamped to zero everywhere has a zero
      total: the coverage is defined and 0, but the unguarded mix would divide
      by zero, while the guarded ratio is 0. */
  lemma IdleSelectionHasNoMix()
    ensures Transformer.Consistent(IdleHour())
    ensures TotalConsumption([IdleHour()]) == 0.0
    ensures SolarCoverage(TotalSolar([IdleHour()]), TotalConsumption([IdleHour()])) == 0.0
    ensures SolarMixRatio(TotalSolar([IdleHour()]), TotalConsumption([IdleHour()])) == 0.0
  {
    SingleRowTotals(IdleHour());
  }

  /** The hours of day that occur among the rows. */
  function HoursOf(rows: seq<CleanedReading>): set<Hour>
  {
    set row | row in rows :: row.timestamp.hour
  }

  /** The rows at one hour of day, in order (one `groupby('hour')` group). */
  function AtHour(rows: seq<CleanedReading>, h: Hour): (group: seq<CleanedReading>)
    ensures |group| <= |rows|
  {
    if rows == [] then []
    else (if rows[0].timestamp.hour == h then [rows[0]] else []) + AtHour(rows[1..], h)
  }

  /** A group holds exactly the rows at its hour. */
  lemma {:induction false} AtHourMembership(rows: seq<CleanedReading>, h: Hour)
    ensures forall row :: row in AtHour(rows, h) <==> row in rows && row.timestamp.hour == h
  {
    if rows != [] {
      AtHourMembership(rows[1..], h);
      assert forall row :: row in rows <==> row == rows[0] || row in rows[1..];
    }
  }

  /** An hour that occurs among the rows has a non-empty group. */
  lemma {:induction false} AtHourNonEmpty(rows: seq<CleanedReading>, h: Hour)
    requires h in HoursOf(rows)
    ensures |AtHour(rows, h)| > 0
  {
    var row :| row in rows && row.timestamp.hour == h;
    if rows[0].timestamp.hour != h {
      assert row in rows[1..];
      AtHourNonEmpty(rows[1..], h);
    }
  }

  /** Grouping distributes over concatenation. */
  lemma {:induction false} AtHourAppend(a: seq<CleanedReading>, b: seq<CleanedReading>, h: Hour)
    ensures AtHour(a + b, h) == AtHour(a, h) + AtHour(b, h)
  {
    if a == [] {
      assert a + b == b;
    } else {
      var head := if a[0].timestamp.hour == h then [a[0]] else [];
      AtHourAppend(a[1..], b, h);
      assert (a + b)[0] == a[0];
      assert (a + b)[1..] == a[1..] + b;
      calc {
        AtHour(a + b, h);
        head + AtHour(a[1..] + b, h);
        head + (AtHour(a[1..], h) + AtHour(b, h));
        (head + AtHour(a[1..], h)) + AtHour(b, h);
      }
    }
  }

  lemma EveryHourHasRows(rows: seq<CleanedReading>)
    ensures forall h :: h in HoursOf(rows) ==> |AtHour(rows, h)| > 0
  {
    forall h | h in HoursOf(rows) ensures |AtHour(rows, h)| > 0 {
      AtHourNonEmpty(rows, h);
    }
  }

  /** Mean consumption and mean solar generation of one hour of day. */
  datatype HourlyAverage = HourlyAverage(consumption: real, solar: real)

  /** The means of a non-empty group. */
  function Averages(group: seq<CleanedReading>): (avg: HourlyAverage)
    requires |group| > 0
  {
    var n := |group| as real;
    HourlyAverage(TotalConsumption(group) / n, TotalSolar(group) / n)
  }

  /** A group of one row averages to that row's values. */
  lemma SingleRowAverages(row: CleanedReading)
    ensures Averages([row]) == HourlyAverage(row.consumption, row.solar)
  {
    SingleRowTotals(row);
  }

  /** `groupby('hour').mean()`: one entry per hour of day present, holding the
      means of the rows at that hour; hours without rows are absent. */
  function HourlyProfile(rows: seq<CleanedReading>): (profile: map<Hour, HourlyAverage>)
    ensures profile.Keys == HoursOf(rows)
    ensures rows == [] ==> profile == map[]
    ensures forall h :: h in profile ==> |AtHour(rows, h)| > 0 && profile[h] == Averages(AtHour(rows, h))
  {
    EveryHourHasRows(rows);
    map h | h in HoursOf(rows) :: Averages(AtHour(rows, h))
  }

  /** Each entry of the profile holds the mean consumption and the mean solar
      generation of the rows at its hour: the group's totals divided by its size. */
  lemma {:induction false} HourlyProfileHoldsMeans(rows: seq<CleanedReading>, h: Hour)
    requires h in HourlyProfile(rows)
    ensures |AtHour(rows, h)| > 0
    ensures var n := |AtHour(rows, h)| as real;
            && HourlyProfile(rows)[h].consumption == TotalConsumption(AtHour(rows, h)) / n
            && HourlyProfile(rows)[h].solar == TotalSolar(AtHour(rows, h)) / n
  {
    assert HourlyProfile(rows)[h] == Averages(AtHour(rows, h));
  }

  /** The means of a group, stated without division: mean times size is the total. */
  lemma AveragesAreMeans(group: seq<CleanedReading>)
    requires |group| > 0
    ensures Averages(group).consumption * |group| as real == TotalConsumption(group)
    ensures Averages(group).solar * |group| as real == TotalSolar(group)
  {
    var n := |group| as real;
    var avg := Averages(group);
    QuotientTimesDivisor(avg.consumption, TotalConsumption(group), n);
    QuotientTimesDivisor(avg.solar, TotalSolar(group), n);
  }

  /** Only hours for which some row exists have an entry. */
  lemma HourlyProfileKeys(rows: seq<CleanedReading>, h: Hour)
    ensures h in HourlyProfile(rows) <==> exists row :: row in rows && row.timestamp.hour == h
  {
  }

  lemma QuotientTimesDivisor(quotient: real, total: real, n: real)
    requires n > 0.0 && quotient == total / n
    ensures quotient * n == total
  {
  }

  /** Energy drawn from the grid: the net load of each row clipped at zero, summed. */
  function GridImport(rows: seq<CleanedReading>): (kwh: real)
    ensures kwh >= 0.0
    ensures kwh >= TotalConsumption(rows) - TotalSolar(rows)
  {
    if rows == [] then 0.0
    else
      var deficit := rows[0].consumption - rows[0].solar;
      (if deficit > 0.0 then deficit else 0.0) + GridImport(rows[1..])
  }

  /** Sum of the estimated cost column. */
  function TotalCost(rows: seq<CleanedReading>): real
  {
    if rows == [] then 0.0 else rows[0].estimatedCost + TotalCost(rows[1..])
  }

  /** On processed rows the grid import priced at the unit price is exactly
      the total estimated cost: both count only the hours that are not
      self-sufficient. */
  lemma {:induction false} GridImportIsBilledEnergy(rows: seq<CleanedReading>)
    requires forall i :: 0 <= i < |rows| ==> Transformer.Consistent(rows[i])
    ensures GridImport(rows) * Transformer.UnitPrice == TotalCost(rows)
  {
    if rows != [] {
      assert Transformer.Consistent(rows[0]);
      GridImportIsBilledEnergy(rows[1..]);
    }
  }

  /** Everything the dashboard shows for one date range. */
  datatype Metrics = Metrics(
    totalConsumption: real,
    totalSolar: real,
    solarCoverage: real,
    solarMix: real,
    co2Saved: real,
    hourly: map<Hour, HourlyAverage>,
    gridImport: real)

  /** The aggregation for the range [start, end]. */
  function Aggregate(table: seq<CleanedReading>, start: int, end: int): (m: Metrics)
    ensures Selected(table, start, end) == [] ==>
              m == Metrics(0.0, 0.0, 0.0, 0.0, 0.0, map[], 0.0)
    ensures m.gridImport >= 0.0
    ensures m.gridImport >= m.totalConsumption - m.totalSolar
    ensures m.solarMix * 100.0 == m.solarCoverage
    ensures m.co2Saved == Co2PerKwh * m.totalSolar
    ensures m.hourly.Keys == HoursOf(Selected(table, start, end))
    ensures m.totalConsumption == TotalConsumption(Selected(table, start, end))
    ensures m.totalSolar == TotalSolar(Selected(table, start, end))
    ensures m.solarCoverage == SolarCoverage(m.totalSolar, m.totalConsumption)
    ensures m.gridImport == GridImport(Selected(table, start, end))
    ensures m.hourly == HourlyProfile(Selected(table, start, end))
  {
    var sel := Selected(table, start, end);
    var totalConsumption := TotalConsumption(sel);
    var totalSolar := TotalSolar(sel);
    Metrics(totalConsumption, totalSolar,
            SolarCoverage(totalSolar, totalConsumption),
            SolarMixRatio(totalSolar, totalConsumption),
            totalSolar * Co2PerKwh,
            HourlyProfile(sel),
            GridImport(sel))
  }

  /** Two processed rows of day 7: (55 kWh, no sun) at midnight and
      (80 kWh, 35 kWh solar) at noon. */
  function TwoHourTable(): seq<CleanedReading>
  {
    [CleanedReading(Timestamp(7, 0), 55.0, 0.0, Some(12.0), 55.0, false, 8.25),
     CleanedReading(Timestamp(7, 12), 80.0, 35.0, Some(25.0), 45.0, false, 6.75)]
  }

  /** Over those two rows: totals 135 and 35, a coverage of 35/135, 14 kg of
      CO2 and a grid import of 55 + 45 = 100. */
  lemma TwoHourTotals()
    ensures forall i :: 0 <= i < |TwoHourTable()| ==> Transformer.Consistent(TwoHourTable()[i])
    ensures Aggregate(TwoHourTable(), 7, 7).totalConsumption == 135.0
    ensures Aggregate(TwoHourTable(), 7, 7).totalSolar == 35.0
    ensures Aggregate(TwoHourTable(), 7, 7).solarCoverage * 135.0 == 3500.0
    ensures Aggregate(TwoHourTable(), 7, 7).solarMix * 135.0 == 35.0
    ensures Aggregate(TwoHourTable(), 7, 7).co2Saved == 14.0
    ensures Aggregate(TwoHourTable(), 7, 7).gridImport == 100.0
  {
    var table := TwoHourTable();
    var a, b := table[0], table[1];
    assert table == [a] + [b];
    SelectedWholeTable(table, 7, 7);
    TotalsAppend([a], [b]);
    SingleRowTotals(a);
    SingleRowTotals(b);
  }

  /** The hourly profile of those two rows has exactly the two hours, each
      with its single row's values. */
  lemma TwoHourProfile()
    ensures Aggregate(TwoHourTable(), 7, 7).hourly
              == map[0 := HourlyAverage(55.0, 0.0), 12 := HourlyAverage(80.0, 35.0)]
  {
    var table := TwoHourTable();
    var a, b := table[0], table[1];
    assert table == [a] + [b];
    SelectedWholeTable(table, 7, 7);
    assert HoursOf(table) == {0, 12};
    SingleRowTotals(a);
    SingleRowTotals(b);
    AtHourAppend([a], [b], 0);
    AtHourAppend([a], [b], 12);
    assert [a][1..] == [] && [b][1..] == [];
    assert AtHour(table, 0) == [a];
    assert AtHour(table, 12) == [b];
    var profile := Aggregate(table, 7, 7).hourly;
    assert profile == HourlyProfile(table);
    assert profile.Keys == {0, 12};
    SingleRowAverages(a);
    SingleRowAverages(b);
  }
}
